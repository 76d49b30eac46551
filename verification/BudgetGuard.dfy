/** The live guard: reservations, the warm usage cache and the cached baseline median, changed in
    place and tied to the values of module BudgetBooks. */
module BudgetGuard {
  import opened Common
  import opened Budget
  import opened BudgetCache
  import opened BudgetBooks
  import Safety = BudgetSafety

  // ----- the ledger store -----

  /** What other users of the store do meanwhile: `bumps` half-steps of its revision counter. */
  datatype Writes = Writes(rows: seq<Row>, bumps: nat)

  /** The ledger under its sequence lock: the revision is odd while a mutation is in progress, and
      the rows cannot change while it stays at one even value. */
  class Store {
    var rows: seq<Row>
    var revision: nat
    var trip: Option<int>

    constructor (rows: seq<Row>)
      ensures this.rows == rows && revision == 0 && trip == None
    {
      this.rows := rows;
      revision := 0;
      trip := None;
    }

    method Foreign(w: Writes)
      modifies this`rows, this`revision
      ensures revision == old(revision) + w.bumps
      ensures rows == if w.bumps == 0 && old(revision) % 2 == 0 then old(rows) else w.rows
    {
      if w.bumps != 0 || revision % 2 != 0 {
        rows := w.rows;
      }
      revision := revision + w.bumps;
    }

    /** Waits out mutations already under way, then appends the row, or nothing, in two half-steps. */
    method Insert(row: Row, ok: bool, waiting: Writes) returns (inserted: bool)
      modifies this`rows, this`revision
      ensures inserted == ok && revision % 2 == 0 && revision >= old(revision) + 2
      ensures old(revision) % 2 == 0 && revision == old(revision) + 2 ==> rows == old(rows) + (if ok then [row] else [])
      ensures old(revision) % 2 == 0 && waiting.bumps == 0 ==> revision == old(revision) + 2
    {
      Foreign(waiting);
      revision := revision + (if revision % 2 == 0 then 1 else 2);
      if ok {
        rows := rows + [row];
      }
      revision := revision + 1;
      return ok;
    }

    method SetTrip(until: int, ok: bool) returns (saved: bool)
      modifies this`trip
      ensures saved == ok && trip == if ok then Some(until) else old(trip)
    {
      if ok {
        trip := Some(until);
      }
      return ok;
    }
  }

  /** One try at loading: foreign writes before and after the query, and whether it succeeds. */
  datatype Attempt = Attempt(before: Writes, loadOk: bool, after: Writes)

  /** Everything outside the guard that one check meets. */
  datatype World = World(settingsOk: bool, tripOk: bool, loads: nat -> Attempt, histories: nat -> Attempt)

  predicate Calm(attempt: Attempt) {
    attempt.loadOk && attempt.before.bumps == 0 && attempt.after.bumps == 0
  }

  datatype Try = GiveUp | Again | Got(usages: seq<Usage>)

  datatype MedianTry = Unknown | Retry | Known(median: real)

  datatype Finding = Unsure | Objects(denial: Denial) | NoObjection(readings: seq<Reading>)

  datatype Standing = Failed | Denied(denial: Denial) | Clear

  class Guard {
    const store: Store
    const calendar: Calendar

    var reservedUSD: real
    var reservedByAgent: map<string, real>
    var inFlight: int
    var cacheReady: bool
    var cacheRevision: nat
    var usageCache: Cache
    var activeGlobalKeys: set<CacheKey>
    var agentCacheDay: int
    var agentCacheEntries: int
    var baselineCacheRaw: Option<Baseline>
    var baselineCacheStart: int
    var baselineCacheRevision: nat
    var baselineCacheMedian: real

    ghost var log: Log
    ghost var issued: seq<Reservation>
    ghost var bases: map<CacheKey, int>  // requests already in the window when an entry was loaded
    ghost var lastNow: Option<int>       // the latest check that got past the usage cache
    ghost var orderly: bool              // local days never went back, and rows carry admission times
    ghost var sole: bool                 // nobody else wrote to the ledger

    ghost function Reserved(): Held
      reads this
    {
      Held(reservedUSD, reservedByAgent, inFlight)
    }

    ghost predicate Valid()
      reads this, store, issued
    {
      Books() && IssuedTrack() && CacheKept([])
    }

    ghost predicate Books()
      reads this, store
    {
      BooksAgree(calendar, Reserved(), log, orderly, lastNow, sole, store.rows)
    }

    /** Every reservation handed out is in step with its entry. */
    ghost predicate IssuedTrack()
      reads this, issued
    {
      |issued| == |log|
      && forall i :: 0 <= i < |issued| ==> issued[i].guard == this && issued[i].index == i && issued[i].Tracks(log[i], calendar)
    }

    ghost predicate CacheKept(extra: seq<CacheKey>)
      reads this, store
    {
      Warm(cacheReady, cacheRevision, usageCache, bases, store.revision, store.rows, orderly)
      && Near(usageCache, activeGlobalKeys, agentCacheDay, agentCacheEntries, extra)
      && (agentCacheDay != 0 ==> lastNow.Some? && agentCacheDay == calendar.local(Daily, lastNow.value))
      && MedianKept(baselineCacheRaw, baselineCacheStart, baselineCacheRevision, baselineCacheMedian, store.revision, store.rows)
    }

    /** Books and caches as they were at an earlier revision of the ledger. */
    ghost predicate Awaiting(revision: nat, rows: seq<Row>)
      reads this
    {
      BooksAgree(calendar, Reserved(), log, orderly, lastNow, sole, rows)
      && Warm(cacheReady, cacheRevision, usageCache, bases, revision, rows, orderly)
      && Near(usageCache, activeGlobalKeys, agentCacheDay, agentCacheEntries, [])
      && (agentCacheDay != 0 ==> lastNow.Some? && agentCacheDay == calendar.local(Daily, lastNow.value))
      && MedianKept(baselineCacheRaw, baselineCacheStart, baselineCacheRevision, baselineCacheMedian, revision, rows)
    }

    constructor (store: Store, calendar: Calendar)
      requires TrueCalendar(calendar)
      ensures Valid() && this.store == store && this.calendar == calendar
      ensures log == [] && issued == [] && lastNow == None && orderly && sole == (store.rows == [])
    {
      this.store := store;
      this.calendar := calendar;
      reservedUSD, reservedByAgent, inFlight := 0.0, map[], 0;
      cacheReady, cacheRevision, usageCache := false, 0, map[];
      activeGlobalKeys, agentCacheDay, agentCacheEntries := {}, 0, 0;
      baselineCacheRaw, baselineCacheStart, baselineCacheRevision, baselineCacheMedian := None, 0, 0, 0.0;
      log, issued, bases, lastNow, orderly, sole := [], [], map[], None, true, store.rows == [];
      new;
      hide Near, Coherent, AgentKeys, TrueCalendar;
      EmptyIsKept(bases, store.rows);
    }

    // ----- the usage cache -----

    /** Foreign writes while the guard is between two reads of the ledger. */
    method Yield(w: Writes, ghost extra: seq<CacheKey>)
      requires CacheKept(extra)
      modifies this`sole, store`rows, store`revision
      ensures CacheKept(extra)
      ensures Drifted(old(store.revision), old(store.rows), old(sole), store.revision, store.rows, sole)
      ensures store.revision == old(store.revision) + w.bumps
    {
      hide Coherent, Near, BaselineMedian;
      ghost var was := store.rows;
      store.Foreign(w);
      sole := sole && store.rows == was;
    }

    method InvalidateUsageCache(revision: nat)
      requires CacheKept([]) && revision <= store.revision
      modifies this`cacheReady, this`cacheRevision, this`usageCache, this`activeGlobalKeys, this`agentCacheDay, this`agentCacheEntries
      ensures CacheKept([]) && cacheReady && cacheRevision == revision
    {
      hide MedianKept, Near, Coherent, AgentKeys;
      cacheReady, cacheRevision, usageCache := true, revision, map[];
      activeGlobalKeys, agentCacheDay, agentCacheEntries := {}, 0, 0;
      EmptyIsKept(bases, store.rows);
    }

    /** Entries that have to be loaded, each once. */
    method Missing(keys: seq<CacheKey>) returns (missing: seq<CacheKey>)
      ensures forall k :: k in missing <==> k in keys && k !in usageCache
      ensures forall i, j :: 0 <= i < j < |missing| ==> missing[i] != missing[j]
    {
      missing := [];
      for i := 0 to |keys|
        invariant forall k :: k in missing <==> k in keys[..i] && k !in usageCache
        invariant forall i, j :: 0 <= i < j < |missing| ==> missing[i] != missing[j]
      {
        if keys[i] !in usageCache && keys[i] !in missing {
          missing := missing + [keys[i]];
        }
      }
    }

    method LoadMissing(missing: seq<CacheKey>) returns (loaded: Cache)
      ensures forall k :: k in loaded <==> k in missing
      ensures forall k :: k in loaded ==> loaded[k] == Load(store.rows, k)
    {
      loaded := map[];
      for i := 0 to |missing|
        invariant forall k :: k in loaded <==> k in missing[..i]
        invariant forall k :: k in loaded ==> loaded[k] == Load(store.rows, k)
      {
        loaded := loaded[missing[i] := Load(store.rows, missing[i])];
      }
    }

    method EvictAgents(keep: set<CacheKey>)
      modifies this`usageCache
      ensures forall k :: k in usageCache <==> k in old(usageCache) && (k.agent == "" || k in keep)
      ensures forall k :: k in usageCache ==> usageCache[k] == old(usageCache)[k]
    {
      var left := usageCache.Keys;
      while left != {}
        modifies this`usageCache
        invariant left <= old(usageCache).Keys
        invariant forall k :: k in usageCache <==> k in old(usageCache) && (k in left || k.agent == "" || k in keep)
        invariant forall k :: k in usageCache ==> usageCache[k] == old(usageCache)[k]
        decreases |left|
      {
        var key :| key in left;
        if key.agent != "" && key !in keep {
          usageCache := usageCache - {key};
        }
        left := left - {key};
      }
    }

    method CountKept(keep: set<CacheKey>) returns (count: int)
      ensures count == |set k | k in keep && k in usageCache|
    {
      count := 0;
      var left := keep;
      ghost var counted: set<CacheKey> := {};
      while left != {}
        invariant left <= keep && counted == set k | k in keep - left && k in usageCache
        invariant count == |counted|
        decreases |left|
      {
        var key :| key in left;
        if key in usageCache {
          count := count + 1;
          counted := counted + {key};
        }
        left := left - {key};
      }
      assert counted == set k | k in keep && k in usageCache;
    }

    /** Drops every agent entry but the kept ones once there are too many. */
    method BoundAgentUsageCache(keep: set<CacheKey>)
      requires agentCacheEntries == |AgentKeys(usageCache)|
      requires forall k, l :: k in keep && l in keep ==> k == l
      requires forall k :: k in keep ==> k.agent != ""
      modifies this`usageCache, this`agentCacheEntries
      ensures agentCacheEntries == |AgentKeys(usageCache)| <= MAX_AGENT_ENTRIES
      ensures forall k :: k in usageCache ==> k in old(usageCache) && usageCache[k] == old(usageCache)[k]
      ensures forall k :: k in old(usageCache) && (k.agent == "" || k in keep) ==> k in usageCache
    {
      if agentCacheEntries <= MAX_AGENT_ENTRIES {
        return;
      }
      EvictAgents(keep);
      agentCacheEntries := CountKept(keep);
      ghost var kept := set k | k in keep && k in usageCache;
      assert kept == AgentKeys(usageCache);
      AtMostOne(kept);
    }

    /** Adds what was loaded and says whether an agent was among it. */
    method AddLoaded(loaded: Cache) returns (addedAgent: bool)
      requires forall k :: k in loaded ==> k !in usageCache
      requires agentCacheEntries == |AgentKeys(usageCache)| <= MAX_AGENT_ENTRIES
      modifies this`usageCache, this`agentCacheEntries
      ensures forall k :: k in usageCache <==> k in old(usageCache) || k in loaded
      ensures forall k :: k in usageCache ==> usageCache[k] == if k in loaded then loaded[k] else old(usageCache)[k]
      ensures agentCacheEntries == |AgentKeys(usageCache)| && (!addedAgent ==> agentCacheEntries <= MAX_AGENT_ENTRIES)
    {
      hide AgentKeys;
      var left := loaded.Keys;
      addedAgent := false;
      while left != {}
        modifies this`usageCache, this`agentCacheEntries
        invariant left <= loaded.Keys && (forall k :: k in left ==> k !in usageCache)
        invariant forall k :: k in usageCache <==> k in old(usageCache) || (k in loaded && k !in left)
        invariant forall k :: k in usageCache ==> usageCache[k] == if k in loaded then loaded[k] else old(usageCache)[k]
        invariant agentCacheEntries == |AgentKeys(usageCache)|
        invariant !addedAgent ==> agentCacheEntries <= MAX_AGENT_ENTRIES
        decreases |left|
      {
        var key :| key in left;
        AgentKeysAdded(usageCache, key, loaded[key]);
        if key !in usageCache && key.agent != "" {
          agentCacheEntries := agentCacheEntries + 1;
          addedAgent := true;
        }
        usageCache := usageCache[key := loaded[key]];
        left := left - {key};
      }
    }

    /** A newly added agent entry may set off the bound, which spares the entries asked for. */
    method Publish(loaded: Cache, keys: seq<CacheKey>, ghost agentKey: CacheKey)
      requires Near(usageCache, activeGlobalKeys, agentCacheDay, agentCacheEntries, [])
      requires forall k :: k in loaded ==> k in keys && k !in usageCache
      requires forall k :: k in keys && k.agent != "" ==> k == agentKey
      modifies this`usageCache, this`agentCacheEntries
      ensures Near(usageCache, activeGlobalKeys, agentCacheDay, agentCacheEntries, keys)
      ensures forall k :: k in usageCache ==> k in old(usageCache) + loaded && usageCache[k] == (old(usageCache) + loaded)[k]
      ensures forall k :: k in keys && (k in old(usageCache) || k in loaded) ==> k in usageCache
    {
      hide AgentKeys, Near;
      NearCounts(usageCache, activeGlobalKeys, agentCacheDay, agentCacheEntries, []);
      var addedAgent := AddLoaded(loaded);
      if addedAgent {
        BoundAgentUsageCache(set k | k in keys && k.agent != "");
      }
      NearExtended(old(usageCache), usageCache, activeGlobalKeys, agentCacheDay, old(agentCacheEntries), agentCacheEntries, keys);
    }

    /** One try: read the revision, load what is missing, and publish it only if the revision has
        not moved. */
    method TryUsages(keys: seq<CacheKey>, attempt: Attempt, ghost agentKey: CacheKey) returns (got: Try)
      requires CacheKept([])
      requires forall k :: k in keys && k.agent != "" ==> k == agentKey
      modifies this`cacheReady, this`cacheRevision, this`usageCache, this`activeGlobalKeys, this`agentCacheDay, this`agentCacheEntries
      modifies this`bases, this`sole, store`rows, store`revision
      ensures CacheKept(if got.Got? then keys else [])
      ensures Drifted(old(store.revision), old(store.rows), old(sole), store.revision, store.rows, sole)
      ensures got.Got? ==> |got.usages| == |keys| && store.revision == old(store.revision)
      ensures got.Got? && orderly ==> forall i :: 0 <= i < |keys| && Whole(keys[i].start) ==> AgreesOn(keys[i], got.usages[i], store.rows)
      ensures Calm(attempt) && old(store.revision) % 2 == 0 ==> got.Got?
    {
      hide Near, MedianKept, AgreesOn, Load, CacheKept, Warm;
      var revision := store.revision;
      if revision % 2 != 0 {
        return GiveUp;
      }
      if !cacheReady || cacheRevision != revision {
        InvalidateUsageCache(revision);
      }
      var missing := Missing(keys);
      Yield(attempt.before, []);
      var loaded := LoadMissing(missing);
      ghost var rows := store.rows;
      if missing != [] && !attempt.loadOk {
        return GiveUp;
      }
      Yield(attempt.after, []);
      var current := store.revision;
      if current != revision || current % 2 != 0 {
        InvalidateUsageCache(current);
        return Again;
      }
      assert store.rows == rows && cacheRevision == store.revision;
      var usages := Install(loaded, keys, agentKey);
      return Got(usages);
    }

    /** Publishes entries loaded at the cache's own, stable revision and answers from the cache. */
    method Install(loaded: Cache, keys: seq<CacheKey>, ghost agentKey: CacheKey) returns (usages: seq<Usage>)
      requires CacheKept([]) && cacheReady && cacheRevision == store.revision && store.revision % 2 == 0
      requires forall k :: k in keys && k.agent != "" ==> k == agentKey
      requires forall k :: k in loaded <==> k in keys && k !in usageCache
      requires forall k :: k in loaded ==> loaded[k] == Load(store.rows, k)
      modifies this`usageCache, this`agentCacheEntries, this`bases
      ensures CacheKept(keys) && |usages| == |keys|
      ensures orderly ==> forall i :: 0 <= i < |keys| && Whole(keys[i].start) ==> AgreesOn(keys[i], usages[i], store.rows)
    {
      hide Near, MedianKept, Warm, AgreesOn, Load, BasesOf, Whole;
      ghost var before := usageCache;
      Publish(loaded, keys, agentKey);
      WarmExtended(cacheRevision, before, loaded, usageCache, bases, store.revision, store.rows, orderly);
      bases := bases + BasesOf(loaded, store.rows);
      assert forall k :: k in keys ==> k in usageCache;
      var cache := usageCache;
      usages := seq(|keys|, i requires 0 <= i < |keys| => if keys[i] in cache then cache[keys[i]] else Usage(0.0, 0, 0));
      if orderly {
        forall i | 0 <= i < |keys| && Whole(keys[i].start) ensures AgreesOn(keys[i], usages[i], store.rows) {
          WarmAgrees(cacheReady, cacheRevision, cache, bases, store.revision, store.rows, orderly, keys[i]);
        }
      }
    }

    /** Usage for every key at one stable revision, in at most three tries. */
    method CachedUsages(keys: seq<CacheKey>, attempts: nat -> Attempt, ghost agentKey: CacheKey) returns (usages: Option<seq<Usage>>)
      requires CacheKept([])
      requires forall k :: k in keys && k.agent != "" ==> k == agentKey
      modifies this`cacheReady, this`cacheRevision, this`usageCache, this`activeGlobalKeys, this`agentCacheDay, this`agentCacheEntries
      modifies this`bases, this`sole, store`rows, store`revision
      ensures CacheKept(if usages.Some? then keys else [])
      ensures Drifted(old(store.revision), old(store.rows), old(sole), store.revision, store.rows, sole)
      ensures usages.Some? ==> |usages.value| == |keys|
      ensures usages.Some? && orderly ==> forall i :: 0 <= i < |keys| && Whole(keys[i].start) ==> AgreesOn(keys[i], usages.value[i], store.rows)
      ensures Calm(attempts(0)) && old(store.revision) % 2 == 0 ==> usages.Some? && store.revision == old(store.revision)
    {
      hide AgreesOn, CacheKept;
      if keys == [] {
        return Some([]);
      }
      for attempt := 0 to 3
        invariant CacheKept([])
        invariant Drifted(old(store.revision), old(store.rows), old(sole), store.revision, store.rows, sole)
        invariant attempt > 0 ==> !(Calm(attempts(0)) && old(store.revision) % 2 == 0)
        invariant attempt == 0 ==> store.revision == old(store.revision)
      {
        var got := TryUsages(keys, attempts(attempt), agentKey);
        match got
        case GiveUp => return None;
        case Again =>
        case Got(found) => return Some(found);
      }
      return None;
    }

    // ----- day rollover and disused entries -----

    method DropDisused(wanted: set<CacheKey>)
      requires forall k :: k in activeGlobalKeys ==> k.agent == ""
      modifies this`usageCache
      ensures forall k :: k in usageCache <==> k in old(usageCache) && (k in activeGlobalKeys ==> k in wanted)
      ensures forall k :: k in usageCache ==> usageCache[k] == old(usageCache)[k]
      ensures |AgentKeys(usageCache)| == |AgentKeys(old(usageCache))|
    {
      hide AgentKeys;
      var left := activeGlobalKeys;
      while left != {}
        modifies this`usageCache
        invariant left <= activeGlobalKeys
        invariant forall k :: k in usageCache <==> k in old(usageCache) && (k in activeGlobalKeys - left ==> k in wanted)
        invariant forall k :: k in usageCache ==> usageCache[k] == old(usageCache)[k]
        invariant |AgentKeys(usageCache)| == |AgentKeys(old(usageCache))|
        decreases |left|
      {
        var key :| key in left;
        if key !in wanted {
          GlobalRemoved(usageCache, key);
          usageCache := usageCache - {key};
        }
        left := left - {key};
      }
    }

    /** On a new local day, agent entries of other days go. */
    method SweepOldDays(today: int)
      modifies this`usageCache, this`agentCacheEntries
      ensures forall k :: k in usageCache <==> k in old(usageCache) && (k.agent != "" ==> k.start == today)
      ensures forall k :: k in usageCache ==> usageCache[k] == old(usageCache)[k]
      ensures agentCacheEntries == |AgentKeys(usageCache)|
    {
      var left := usageCache.Keys;
      var current := 0;
      ghost var kept: set<CacheKey> := {};
      while left != {}
        modifies this`usageCache
        invariant left <= old(usageCache).Keys
        invariant forall k :: k in usageCache <==> k in old(usageCache) && (k in left || (k.agent != "" ==> k.start == today))
        invariant forall k :: k in usageCache ==> usageCache[k] == old(usageCache)[k]
        invariant forall k :: k in kept <==> k in old(usageCache) && k !in left && k.agent != "" && k.start == today
        invariant current == |kept|
        decreases |left|
      {
        var key :| key in left;
        if key.agent != "" && key.start != today {
          usageCache := usageCache - {key};
        } else if key.agent != "" {
          current := current + 1;
          kept := kept + {key};
        }
        left := left - {key};
      }
      assert kept == AgentKeys(usageCache);
      agentCacheEntries := current;
    }

    /** Makes the checked windows the active ones, rolls the day over, and forgets the calling
        agent's entry when it no longer has a cap. */
    method ReconcileUsageCache(globals: seq<CacheKey>, agent: string, agentCapSet: bool, today: int, ghost keys: seq<CacheKey>)
      requires Near(usageCache, activeGlobalKeys, agentCacheDay, agentCacheEntries, keys) && today != 0
      requires forall k :: k in globals ==> k.agent == ""
      requires forall k :: k in keys ==> if k.agent == "" then k in globals else k.start == today
      modifies this`usageCache, this`activeGlobalKeys, this`agentCacheDay, this`agentCacheEntries
      ensures Near(usageCache, activeGlobalKeys, agentCacheDay, agentCacheEntries, []) && agentCacheDay == today
      ensures forall k :: k in usageCache ==> k in old(usageCache) && usageCache[k] == old(usageCache)[k]
    {
      hide AgentKeys;
      var wanted := set k | k in globals;
      DropDisused(wanted);
      activeGlobalKeys := wanted;
      assert agentCacheEntries == |AgentKeys(usageCache)|;
      if agentCacheDay != 0 && agentCacheDay != today {
        ghost var before := usageCache;
        SweepOldDays(today);
        FewerAgentKeys(before, usageCache);
      }
      agentCacheDay := today;
      var key := CacheKey(today, agent);
      if agent != "" && !agentCapSet && key in usageCache {
        AgentKeysRemoved(usageCache, key);
        usageCache := usageCache - {key};
        agentCacheEntries := Max(0, agentCacheEntries - 1);
      }
    }

    // ----- the cached baseline median -----

    method ClearBaselineCache()
      modifies this`baselineCacheRaw, this`baselineCacheStart, this`baselineCacheRevision, this`baselineCacheMedian
      ensures baselineCacheRaw.None? && baselineCacheRevision == 0
    {
      baselineCacheRaw, baselineCacheStart, baselineCacheRevision, baselineCacheMedian := None, 0, 0, 0.0;
    }

    method TryMedian(b: Baseline, start: int, attempt: Attempt) returns (got: MedianTry)
      requires CacheKept([]) && 0 < b.window <= DAY
      modifies this`baselineCacheRaw, this`baselineCacheStart, this`baselineCacheRevision, this`baselineCacheMedian
      modifies this`sole, store`rows, store`revision
      ensures CacheKept([])
      ensures Drifted(old(store.revision), old(store.rows), old(sole), store.revision, store.rows, sole)
      ensures got.Known? ==> store.revision == old(store.revision) && got.median == BaselineMedian(store.rows, b, start)
      ensures Calm(attempt) && old(store.revision) % 2 == 0 ==> got.Known? && store.revision == old(store.revision)
    {
      hide Near, Warm, BaselineMedian, MedianKept;
      var revision := store.revision;
      if revision % 2 != 0 {
        return Unknown;
      }
      if baselineCacheRaw == Some(b) && baselineCacheStart == start && baselineCacheRevision == revision {
        KeptMedian(baselineCacheRaw, start, revision, baselineCacheMedian, revision, store.rows);
        return Known(baselineCacheMedian);
      }
      Yield(attempt.before, []);
      var median := BaselineMedian(store.rows, b, start);
      ghost var rows := store.rows;
      if !attempt.loadOk {
        return Unknown;
      }
      Yield(attempt.after, []);
      if store.revision != revision || store.revision % 2 != 0 {
        ClearBaselineCache();
        ClearedIsKept(baselineCacheStart, baselineCacheMedian, store.revision, store.rows);
        return Retry;
      }
      assert store.rows == rows;
      baselineCacheRaw, baselineCacheStart, baselineCacheRevision, baselineCacheMedian := Some(b), start, revision, median;
      FreshMedian(b, start, revision, store.rows);
      return Known(median);
    }

    method CachedMedian(b: Baseline, start: int, attempts: nat -> Attempt) returns (median: Option<real>)
      requires CacheKept([]) && 0 < b.window <= DAY
      modifies this`baselineCacheRaw, this`baselineCacheStart, this`baselineCacheRevision, this`baselineCacheMedian
      modifies this`sole, store`rows, store`revision
      ensures CacheKept([])
      ensures Drifted(old(store.revision), old(store.rows), old(sole), store.revision, store.rows, sole)
      ensures median.Some? ==> median.value == BaselineMedian(store.rows, b, start)
      ensures Calm(attempts(0)) && old(store.revision) % 2 == 0 ==> median.Some? && store.revision == old(store.revision)
    {
      hide BaselineMedian, CacheKept;
      for attempt := 0 to 3
        invariant CacheKept([])
        invariant Drifted(old(store.revision), old(store.rows), old(sole), store.revision, store.rows, sole)
        invariant attempt > 0 ==> !(Calm(attempts(0)) && old(store.revision) % 2 == 0)
        invariant attempt == 0 ==> store.revision == old(store.revision)
      {
        var got := TryMedian(b, start, attempts(attempt));
        match got
        case Unknown => return None;
        case Retry =>
        case Known(found) => return Some(found);
      }
      return None;
    }

    // ----- the standing check -----

    static method Scan(gauges: seq<Gauge>, usages: seq<Usage>, held: Held, now: int, cooldown: int)
      returns (objection: Option<Denial>, readings: seq<Reading>)
      requires |usages| == |gauges|
      ensures objection == FirstObjection(Seen(gauges, usages, held), now, cooldown)
      ensures objection.Some? ==> Lasts(objection.value, now + cooldown)
      ensures objection.None? ==> readings == Seen(gauges, usages, held)
    {
      hide Objection;
      ghost var all := Seen(gauges, usages, held);
      ObjectionLasts(all, now, cooldown);
      readings := [];
      for i := 0 to |gauges|
        invariant readings == all[..i] && FirstObjection(readings, now, cooldown).None?
      {
        var reading := ReadUsage(gauges[i], usages[i], held);
        readings := readings + [reading];
        assert readings == all[..i + 1] && readings[..i] == all[..i];
        objection := Objection(reading, now, cooldown);
        if objection.Some? {
          ObjectionInPrefix(all, i + 1, now, cooldown);
          return;
        }
      }
      assert all[..|gauges|] == all;
      return None, readings;
    }

    /** Fixed windows and the baseline. When the usages agree with the ledger and it did not change,
        this is the ledger's own first objection. */
    method JudgeShared(settings: Settings, now: int, usages: seq<Usage>, histories: nat -> Attempt) returns (finding: Finding)
      requires ValidSettings(settings) && CacheKept([])
      requires |usages| == |FixedGauges(settings, calendar, now)| + |BaselineKeys(settings, now)|
      modifies this`baselineCacheRaw, this`baselineCacheStart, this`baselineCacheRevision, this`baselineCacheMedian
      modifies this`sole, store`rows, store`revision
      ensures CacheKept([])
      ensures finding.Objects? ==> Lasts(finding.denial, now + settings.cooldown)
      ensures Drifted(old(store.revision), old(store.rows), old(sole), store.revision, store.rows, sole)
      ensures Calm(histories(0)) && old(store.revision) % 2 == 0 ==> !finding.Unsure? && store.revision == old(store.revision)
      ensures !finding.Unsure? && store.rows == old(store.rows)
              && AllAgree(FixedGauges(settings, calendar, now), usages[..|FixedGauges(settings, calendar, now)|], store.rows)
              && (settings.baseline.Some? ==> AgreesOn(BaselineKeys(settings, now)[0], usages[|FixedGauges(settings, calendar, now)|], store.rows))
              ==> SharedFinding(finding, settings, calendar, now, store.rows, Reserved())
    {
      hide FixedGauges, AgreesOn, CacheKept, ReadUsage, BaselineMedian, FirstObjection, Lasts, Seen, AllAgree;
      var held := Held(reservedUSD, reservedByAgent, inFlight);
      var fixed := FixedGauges(settings, calendar, now);
      ghost var m := |fixed|;
      var objection, readings := Scan(fixed, usages[..|fixed|], held, now, settings.cooldown);
      if settings.baseline.None? || objection.Some? {
        SharedFound(settings, calendar, now, usages, store.rows, held);
        return if objection.Some? then Objects(objection.value) else NoObjection(readings);
      }
      var b := settings.baseline.value;
      var start := BaselineStart(now, b.window);
      var median := CachedMedian(b, start, histories);
      if median.None? {
        return Unsure;
      }
      var gauge := BaselineGauge(start, MaxReal(b.minimumUSD, median.value * b.multiplier));
      var crossed, last := Scan([gauge], usages[|fixed|..], held, now, settings.cooldown);
      SharedConcludes(settings, calendar, now, usages, store.rows, held, median.value, readings, crossed, last);
      return if crossed.Some? then Objects(crossed.value) else NoObjection(readings + last);
    }

    /** Every window for which the calling agent's request was loaded, in the order of the keys. */
    method Judge(settings: Settings, now: int, agent: string, usages: seq<Usage>, histories: nat -> Attempt) returns (finding: Finding)
      requires ValidSettings(settings) && CacheKept([])
      requires |usages| == |CheckKeys(settings, calendar, now, agent)|
      modifies this`baselineCacheRaw, this`baselineCacheStart, this`baselineCacheRevision, this`baselineCacheMedian
      modifies this`sole, store`rows, store`revision
      ensures CacheKept([])
      ensures finding.Objects? ==> Lasts(finding.denial, now + settings.cooldown)
      ensures Drifted(old(store.revision), old(store.rows), old(sole), store.revision, store.rows, sole)
      ensures Calm(histories(0)) && old(store.revision) % 2 == 0 ==> !finding.Unsure? && store.revision == old(store.revision)
      ensures !finding.Unsure? && store.rows == old(store.rows)
              && AllKeysAgree(CheckKeys(settings, calendar, now, agent), usages, store.rows)
              ==> WindowsFinding(finding, settings, calendar, now, agent, store.rows, Reserved())
    {
      hide FixedGauges, AgreesOn, CacheKept, ReadUsage, BaselineMedian, FirstObjection, AgentGauges, Readings, CheckKeys;
      hide SharedFinding, WindowsFinding, AllAgree, AllKeysAgree, FanoutObjection;
      var held := Held(reservedUSD, reservedByAgent, inFlight);
      var m := |FixedGauges(settings, calendar, now)| + |BaselineKeys(settings, now)|;
      var agents := AgentGauges(settings, calendar, now, agent);
      var k := |usages| - |agents|;
      CheckKeysInParts(settings, calendar, now, agent, usages, store.rows);
      finding := JudgeShared(settings, now, usages[..m], histories);
      SharedDecides(finding, settings, calendar, now, agent, store.rows, held);
      if !finding.NoObjection? {
        return;
      }
      var room := true;
      NoBreaker(settings, now, store.rows, held);
      if settings.fanout.Some? {
        room := usages[m].requests + inFlight < settings.fanout.value.1;
        FanoutSays(settings, now, usages[m], store.rows, held, room);
      }
      if !room {
        FanoutDecides(finding.readings, settings, calendar, now, agent, store.rows, held);
        return Objects(FanoutTripped(now + settings.cooldown));
      }
      var objection, own := Scan(agents, usages[k..], held, now, settings.cooldown);
      OwnDecides(finding.readings, own, objection, settings, calendar, now, agent, usages[k..], store.rows, held);
      return if objection.Some? then Objects(objection.value) else NoObjection(finding.readings + own);
    }

    /** Usage for every cutoff a check needs, after which the cache holds those windows and no
        disused ones. */
    method LoadUsages(settings: Settings, now: int, agent: string, loads: nat -> Attempt) returns (usages: Option<seq<Usage>>)
      requires Books() && CacheKept([]) && ValidSettings(settings) && calendar.local(Daily, now) != 0
      modifies this`cacheReady, this`cacheRevision, this`usageCache, this`activeGlobalKeys, this`agentCacheDay, this`agentCacheEntries
      modifies this`bases, this`lastNow, this`orderly, this`sole, store`rows, store`revision
      ensures Books() && CacheKept([])
      ensures Drifted(old(store.revision), old(store.rows), old(sole), store.revision, store.rows, sole)
      ensures usages.Some? ==> |usages.value| == |CheckKeys(settings, calendar, now, agent)|
      ensures usages.Some? && old(orderly) && WholeBaseline(settings, now)
              ==> AllKeysAgree(CheckKeys(settings, calendar, now, agent), usages.value, store.rows)
      ensures usages.Some? ==> lastNow == Some(now) && orderly == (old(orderly) && Follows(calendar, old(lastNow), now))
      ensures usages.None? ==> lastNow == old(lastNow) && orderly == old(orderly)
      ensures Calm(loads(0)) && old(store.revision) % 2 == 0 ==> usages.Some? && store.revision == old(store.revision)
    {
      hide BooksAgree, AgreesOn, CheckKeys, GlobalKeys, CacheKept, Follows, WholeBaseline;
      var keys := CheckKeys(settings, calendar, now, agent);
      BooksAfterDrift(calendar, Reserved(), log, orderly, lastNow, sole, store.rows, sole, store.rows);
      CheckKeysKinds(settings, calendar, now, agent);
      usages := CachedUsages(keys, loads, CacheKey(calendar.local(Daily, now), agent));
      BooksAfterDrift(calendar, Reserved(), log, orderly, lastNow, old(sole), old(store.rows), sole, store.rows);
      if usages.Some? {
        Advance(settings, now, agent, keys);
      }
    }

    /** The caches' day moves to `now`'s. */
    method Advance(settings: Settings, now: int, agent: string, ghost keys: seq<CacheKey>)
      requires Books() && CacheKept(keys) && ValidSettings(settings) && calendar.local(Daily, now) != 0
      requires keys == CheckKeys(settings, calendar, now, agent)
      modifies this`usageCache, this`activeGlobalKeys, this`agentCacheDay, this`agentCacheEntries, this`lastNow, this`orderly
      ensures Books() && CacheKept([])
      ensures lastNow == Some(now) && orderly == (old(orderly) && Follows(calendar, old(lastNow), now))
    {
      hide AgreesOn, Near, Warm, MedianKept, CheckKeys, GlobalKeys, Follows, BooksAgree, WholeBaseline;
      BooksAfterDrift(calendar, Reserved(), log, orderly, lastNow, sole, store.rows, sole, store.rows);
      var globals := GlobalKeys(settings, calendar, now);
      var today := calendar.local(Daily, now);
      CheckKeysKinds(settings, calendar, now, agent);
      ghost var cache, was := usageCache, orderly;
      ReconcileUsageCache(globals, agent, AgentGauges(settings, calendar, now, agent) != [], today, keys);
      ghost var follows := Follows(calendar, lastNow, now);
      WarmShrunk(cacheReady, cacheRevision, cache, usageCache, bases, store.revision, store.rows, was, was && follows);
      BooksAfterCheck(calendar, Reserved(), log, orderly, lastNow, sole, store.rows, now);
      orderly := orderly && follows;
      lastNow := Some(now);
    }

    method CheckWindows(settings: Settings, now: int, agent: string, world: World) returns (finding: Finding)
      requires Books() && CacheKept([]) && ValidSettings(settings) && calendar.local(Daily, now) != 0
      modifies this`cacheReady, this`cacheRevision, this`usageCache, this`activeGlobalKeys, this`agentCacheDay, this`agentCacheEntries
      modifies this`baselineCacheRaw, this`baselineCacheStart, this`baselineCacheRevision, this`baselineCacheMedian
      modifies this`bases, this`lastNow, this`orderly, this`sole, store`rows, store`revision
      ensures Books() && CacheKept([])
      ensures finding.Objects? ==> Lasts(finding.denial, now + settings.cooldown)
      ensures Drifted(old(store.revision), old(store.rows), old(sole), store.revision, store.rows, sole)
      ensures finding.NoObjection? ==> lastNow == Some(now)
      ensures old(orderly) && Follows(calendar, old(lastNow), now) ==> orderly
      ensures CalmWorld(world) && old(store.revision) % 2 == 0 ==> !finding.Unsure? && store.revision == old(store.revision)
      ensures lastNow == old(lastNow) || lastNow == Some(now)
      ensures !finding.Unsure? && Undisturbed(settings, now, old(orderly), old(store.revision), store.revision)
              ==> WindowsFinding(finding, settings, calendar, now, agent, old(store.rows), Reserved())
    {
      hide AgreesOn, CacheKept, BooksAgree, AllKeysAgree, CheckKeys, Follows, WholeBaseline, WindowsFinding;
      var usages := LoadUsages(settings, now, agent, world.loads);
      if usages.None? {
        return Unsure;
      }
      ghost var was, rows := sole, store.rows;
      finding := Judge(settings, now, agent, usages.value, world.histories);
      BooksAfterDrift(calendar, Reserved(), log, orderly, lastNow, was, rows, sole, store.rows);
    }

    /** Bans and cooldown, then every window over loaded usage; a tripped fuse is saved. Undisturbed,
        the answer is the ledger's own. */
    method CheckLocked(settings: Settings, now: int, agent: string, world: World) returns (standing: Standing, readings: seq<Reading>)
      requires Books() && CacheKept([]) && ValidSettings(settings) && calendar.local(Daily, now) != 0
      modifies this`cacheReady, this`cacheRevision, this`usageCache, this`activeGlobalKeys, this`agentCacheDay, this`agentCacheEntries
      modifies this`baselineCacheRaw, this`baselineCacheStart, this`baselineCacheRevision, this`baselineCacheMedian
      modifies this`bases, this`lastNow, this`orderly, this`sole, store
      ensures Books() && CacheKept([])
      ensures Drifted(old(store.revision), old(store.rows), old(sole), store.revision, store.rows, sole)
      ensures standing.Clear? ==> lastNow == Some(now)
      ensures old(orderly) && Follows(calendar, old(lastNow), now) ==> orderly
      ensures CalmWorld(world) && old(store.revision) % 2 == 0 ==> !standing.Failed? && store.revision == old(store.revision)
      ensures lastNow == old(lastNow) || lastNow == Some(now)
      ensures store.trip == if standing.Denied? then TripAfter(old(store.trip), standing.denial) else old(store.trip)
      ensures standing.Denied? ==> Lasts(standing.denial, now + settings.cooldown)
      ensures !settings.banned && !settings.externalBan && old(store.trip).Some? && now < old(store.trip).value && !standing.Failed?
              ==> standing == Denied(CoolingDown(old(store.trip).value))
      ensures Undisturbed(settings, now, old(orderly), old(store.revision), store.revision)
              ==> StandingIs(standing, readings, settings, calendar, old(store.trip), now, agent, old(store.rows), Reserved())
    {
      hide CacheKept, BooksAgree, Follows, Undisturbed, WindowsObjection, Positions, Readings;
      readings := [];
      if !world.settingsOk {
        return Failed, [];
      }
      if settings.banned {
        return Denied(Banned), [];
      }
      if settings.externalBan {
        return Denied(ExternallyBanned), [];
      }
      var trip := store.trip;
      if trip.Some? && now < trip.value {
        return Denied(CoolingDown(trip.value)), [];
      }
      var finding := CheckWindows(settings, now, agent, world);
      match finding
      case Unsure => return Failed, [];
      case NoObjection(found) => return Clear, found;
      case Objects(denial) =>
        standing := Refuse(denial, world.tripOk);
    }

    /** A tripped fuse is written down before it is reported; if it cannot be, the call fails. */
    method Refuse(denial: Denial, tripOk: bool) returns (standing: Standing)
      requires CacheKept([]) && Books()
      modifies store`trip
      ensures CacheKept([]) && Books()
      ensures standing == Denied(denial) || (standing.Failed? && !tripOk)
      ensures store.trip == if standing.Denied? then TripAfter(old(store.trip), denial) else old(store.trip)
    {
      if denial.FuseTripped? || denial.FanoutTripped? {
        var saved := store.SetTrip(denial.until, tripOk);
        if !saved {
          return Failed;
        }
      }
      return Denied(denial);
    }

    /** Whether spend may proceed, reserving nothing. */
    method CheckOnly(settings: Settings, now: int, agent: string, world: World) returns (standing: Standing)
      requires Valid() && ValidSettings(settings) && calendar.local(Daily, now) != 0
      modifies this, store
      ensures Valid() && log == old(log) && issued == old(issued) && Reserved() == old(Reserved())
      ensures CalmWorld(world) && old(store.revision) % 2 == 0 ==> !standing.Failed?
      ensures store.trip == if standing.Denied? then TripAfter(old(store.trip), standing.denial) else old(store.trip)
      ensures Undisturbed(settings, now, old(orderly), old(store.revision), store.revision) && !standing.Failed? ==>
                Check(settings, calendar, old(store.trip), now, agent, old(store.rows), Reserved())
                == if standing.Denied? then Some(standing.denial) else None
    {
      hide Books, CacheKept, Undisturbed, Positions, Check;
      var readings;
      standing, readings := CheckLocked(settings, now, agent, world);
    }

    // ----- admission -----

    static method FirstCrossedBy(readings: seq<Reading>, amount: real) returns (crossed: Option<Gauge>)
      ensures crossed == FirstCrossed(readings, amount)
    {
      for i := 0 to |readings|
        invariant FirstCrossed(readings[..i], amount).None?
      {
        assert readings[..i + 1][..i] == readings[..i];
        if amount > Remaining(readings[i]) + SLACK {
          CrossedInPrefix(readings, i + 1, amount);
          return Some(readings[i].gauge);
        }
      }
      assert readings[..|readings|] == readings;
      return None;
    }

    static method LargestRemaining(readings: seq<Reading>) returns (largest: real)
      ensures largest == MaxRemaining(readings) && largest >= 0.0
    {
      largest := 0.0;
      for i := 0 to |readings|
        invariant largest == MaxRemaining(readings[..i]) && largest >= 0.0
      {
        assert readings[..i + 1][..i] == readings[..i];
        largest := MaxReal(largest, Remaining(readings[i]));
      }
      assert readings[..|readings|] == readings;
    }

    /** What a cleared request reserves: its own bound, or every window's headroom when it has none. */
    static method Price(readings: seq<Reading>, estimate: Estimate, now: int, cooldown: int) returns (verdict: Verdict)
      requires estimate.usd >= 0.0
      ensures verdict == Grant(readings, estimate, now, cooldown)
      ensures verdict.Granted? ==> verdict.amount >= 0.0
    {
      var amount := 0.0;
      if readings != [] {
        if !estimate.priced {
          return Refused(UnpricedRequest);
        }
        if estimate.bounded {
          amount := estimate.usd;
          var crossed := FirstCrossedBy(readings, amount);
          if crossed.Some? {
            return Refused(if IsFuse(crossed.value) then FuseTripped(now + cooldown) else ExceedsRemaining(crossed.value));
          }
        } else {
          amount := LargestRemaining(readings);
        }
      }
      return Granted(amount);
    }

    /** Checks, prices and reserves in one step. Undisturbed, the verdict is the ledger's own; with
        no other writer it is the step of module BudgetSafety. */
    method Admit(settings: Settings, now: int, agent: string, estimate: Estimate, world: World)
      returns (verdict: Option<Verdict>, reservation: Reservation?)
      requires Valid() && ValidSettings(settings) && calendar.local(Daily, now) != 0 && now >= 0
      modifies this, store
      ensures Valid()
      ensures verdict.Some? && verdict.value.Granted? <==> reservation != null
      ensures reservation == null ==> log == old(log) && issued == old(issued) && Reserved() == old(Reserved())
      ensures reservation != null ==>
                fresh(reservation) && reservation.amount == verdict.value.amount && issued == old(issued) + [reservation]
                && log == old(log) + [Safety.Entry(now, agent, verdict.value.amount, Safety.Open)]
                && Reserved() == Taken(old(Reserved()), agent, verdict.value.amount)
      ensures store.trip == if verdict.Some? && verdict.value.Refused? then TripAfter(old(store.trip), verdict.value.denial) else old(store.trip)
      ensures estimate.usd < 0.0 ==> verdict.None?
      ensures CalmWorld(world) && old(store.revision) % 2 == 0 && estimate.usd >= 0.0 ==> verdict.Some? && store.revision == old(store.revision)
      ensures lastNow == old(lastNow) || lastNow == Some(now)
      ensures old(orderly) && Follows(calendar, old(lastNow), now) ==> orderly
      ensures Drifted(old(store.revision), old(store.rows), old(sole), store.revision, store.rows, sole)
      ensures verdict.Some? && verdict.value.Refused? ==> Lasts(verdict.value.denial, now + settings.cooldown)
      ensures !settings.banned && !settings.externalBan && old(store.trip).Some? && now < old(store.trip).value && verdict.Some?
              ==> verdict.value == Refused(CoolingDown(old(store.trip).value))
      ensures verdict.Some? && Undisturbed(settings, now, old(orderly), old(store.revision), store.revision) ==>
                verdict.value == Admission(settings, calendar, old(store.trip), now, agent, old(store.rows), old(Reserved()), estimate)
    {
      hide Books, CacheKept, Undisturbed, StandingIs, Admission, Grant, Drifted, Follows, Taken, CalmWorld;
      if estimate.usd < 0.0 {
        DriftNone(store.revision, store.rows, sole);
        return None, null;
      }
      ghost var trip, rows, held := store.trip, store.rows, Reserved();
      var standing, readings := CheckLocked(settings, now, agent, world);
      CheckThenGrant(standing, readings, settings, calendar, trip, now, agent, rows, held, estimate);
      match standing
      case Failed => return None, null;
      case Denied(denial) => return Some(Refused(denial)), null;
      case Clear =>
        CalmSaves(world);
        verdict, reservation := Conclude(now, agent, readings, estimate, settings.cooldown, world.tripOk);
    }

    /** Prices a cleared request and reserves what it was granted. */
    method Conclude(now: int, agent: string, readings: seq<Reading>, estimate: Estimate, cooldown: int, tripOk: bool)
      returns (verdict: Option<Verdict>, reservation: Reservation?)
      requires Valid() && estimate.usd >= 0.0 && now >= 0 && lastNow == Some(now)
      modifies this`reservedUSD, this`reservedByAgent, this`inFlight, this`log, this`issued, store`trip
      ensures Valid()
      ensures verdict.Some? && verdict.value.Granted? <==> reservation != null
      ensures reservation == null ==> log == old(log) && issued == old(issued) && Reserved() == old(Reserved())
      ensures reservation != null ==>
                fresh(reservation) && reservation.amount == verdict.value.amount && issued == old(issued) + [reservation]
                && log == old(log) + [Safety.Entry(now, agent, verdict.value.amount, Safety.Open)]
                && Reserved() == Taken(old(Reserved()), agent, verdict.value.amount)
      ensures store.trip == if verdict.Some? && verdict.value.Refused? then TripAfter(old(store.trip), verdict.value.denial) else old(store.trip)
      ensures verdict.Some? ==> verdict.value == Grant(readings, estimate, now, cooldown)
      ensures verdict.None? ==> !tripOk
      ensures verdict.Some? && verdict.value.Refused? ==> Lasts(verdict.value.denial, now + cooldown)
    {
      hide Grant, BooksAgree, Warm, Near, MedianKept, Taken;
      PriceLasts(readings, estimate, now, cooldown);
      var price := Price(readings, estimate, now, cooldown);
      match price
      case Granted(amount) =>
        reservation := Reserve(now, agent, amount);
        verdict := Some(price);
      case Refused(denial) =>
        var saved := Refuse(denial, tripOk);
        return if saved.Failed? then None else Some(price), null;
    }

    method Reserve(now: int, agent: string, amount: real) returns (reservation: Reservation)
      requires Valid() && amount >= 0.0 && now >= 0 && lastNow == Some(now)
      modifies this`reservedUSD, this`reservedByAgent, this`inFlight, this`log, this`issued
      ensures Valid() && fresh(reservation) && reservation.amount == amount
      ensures log == old(log) + [Safety.Entry(now, agent, amount, Safety.Open)] && issued == old(issued) + [reservation]
      ensures Reserved() == Taken(old(Reserved()), agent, amount)
    {
      hide BooksAgree, Warm, Near, MedianKept, Taken;
      reservation := new Reservation(this, agent, amount, CacheKey(calendar.local(Daily, now), agent), |log|);
      TakeRoom(now, agent, amount);
      issued := issued + [reservation];
    }

    method TakeRoom(now: int, agent: string, amount: real)
      requires Books() && CacheKept([]) && amount >= 0.0 && now >= 0 && lastNow == Some(now)
      modifies this`reservedUSD, this`reservedByAgent, this`inFlight, this`log
      ensures Books() && CacheKept([])
      ensures log == old(log) + [Safety.Entry(now, agent, amount, Safety.Open)]
      ensures Reserved() == Taken(old(Reserved()), agent, amount)
    {
      hide BooksAgree, Warm, Near, MedianKept;
      ghost var e := Safety.Entry(now, agent, amount, Safety.Open);
      BooksAfterAdmit(calendar, Reserved(), log, e, orderly, sole, store.rows);
      reservedUSD := reservedUSD + amount;
      if agent != "" {
        reservedByAgent := reservedByAgent[agent := (if agent in reservedByAgent then reservedByAgent[agent] else 0.0) + amount];
      }
      inFlight := inFlight + 1;
      log := log + [e];
    }

    // ----- settlement -----

    method AddSettledUsage(key: CacheKey, row: Row)
      modifies this`usageCache
      ensures usageCache.Keys == old(usageCache).Keys
      ensures forall k :: k in old(usageCache) ==>
                usageCache[k] == if k == key then Bumped(k, old(usageCache)[k], row) else old(usageCache)[k]
    {
      if key in usageCache {
        usageCache := usageCache[key := Bumped(key, usageCache[key], row)];
      }
    }

    /** Adds the row to every active window and to the admission day's agent entry. */
    method AddSettledUsages(row: Row, agentDay: CacheKey)
      requires forall k :: k in activeGlobalKeys ==> k.agent == ""
      requires agentDay.agent == row.agent
      modifies this`usageCache
      ensures AllBumped(old(usageCache), usageCache, activeGlobalKeys, agentDay, row)
    {
      hide Bumped;
      var left := activeGlobalKeys;
      while left != {}
        modifies this`usageCache
        invariant left <= activeGlobalKeys && usageCache.Keys == old(usageCache).Keys
        invariant forall k :: k in old(usageCache) ==>
                    usageCache[k] == if k in activeGlobalKeys - left then Bumped(k, old(usageCache)[k], row) else old(usageCache)[k]
        decreases |left|
      {
        var key :| key in left;
        AddSettledUsage(key, row);
        left := left - {key};
      }
      if row.agent != "" {
        AddSettledUsage(agentDay, row);
      }
    }

    /** Brings the usage cache in step with the row just inserted, or drops it when anything else
        happened to the ledger. */
    method AbsorbUsage(row: Row, agentDay: CacheKey, before: nat, ghost rows: seq<Row>, ghost inOrder: bool)
      requires Warm(cacheReady, cacheRevision, usageCache, bases, before, rows, orderly)
      requires Near(usageCache, activeGlobalKeys, agentCacheDay, agentCacheEntries, [])
      requires store.revision >= before + 2
      requires before % 2 == 0 && store.revision == before + 2 ==> store.rows == rows + [row]
      requires inOrder ==> orderly && AgentDayFits(agentDay, row, agentCacheDay)
      requires agentDay.agent == row.agent
      modifies this`cacheReady, this`cacheRevision, this`usageCache, this`activeGlobalKeys, this`agentCacheDay, this`agentCacheEntries
      modifies this`orderly
      ensures orderly == inOrder
      ensures Warm(cacheReady, cacheRevision, usageCache, bases, store.revision, store.rows, orderly)
      ensures Near(usageCache, activeGlobalKeys, agentCacheDay, agentCacheEntries, [])
      ensures agentCacheDay == old(agentCacheDay) || agentCacheDay == 0
    {
      hide Warm, Near, AllBumped, AgentDayFits, Coherent;
      var after := store.revision;
      NearKinds(usageCache, activeGlobalKeys, agentCacheDay, agentCacheEntries, []);
      if cacheReady && before % 2 == 0 && cacheRevision == before && after == before + 2 {
        ghost var cache := usageCache;
        AddSettledUsages(row, agentDay);
        WarmAfterSettle(cacheReady, cacheRevision, cache, usageCache, bases, before, rows, orderly, inOrder,
                        activeGlobalKeys, agentCacheDay, agentCacheEntries, agentDay, row);
        cacheRevision := after;
      } else {
        cacheReady, cacheRevision, usageCache := true, after, map[];
        activeGlobalKeys, agentCacheDay, agentCacheEntries := {}, 0, 0;
        EmptyIsKept(bases, store.rows);
        EmptyIsWarm(after, bases, store.rows, inOrder);
      }
      orderly := inOrder;
    }

    /** A row of the current slot cannot move the median of earlier days. */
    method AbsorbMedian(row: Row, before: nat, ghost rows: seq<Row>)
      requires MedianKept(baselineCacheRaw, baselineCacheStart, baselineCacheRevision, baselineCacheMedian, before, rows)
      requires store.revision >= before + 2
      requires before % 2 == 0 && store.revision == before + 2 ==> store.rows == rows + [row]
      modifies this`baselineCacheRaw, this`baselineCacheStart, this`baselineCacheRevision, this`baselineCacheMedian, this`sole
      ensures MedianKept(baselineCacheRaw, baselineCacheStart, baselineCacheRevision, baselineCacheMedian, store.revision, store.rows)
      ensures sole == (old(sole) && store.rows == rows + [row])
    {
      hide MedianKept;
      sole := sole && store.rows == rows + [row];
      var after := store.revision;
      StaleIsKept(baselineCacheRaw, baselineCacheStart, baselineCacheRevision, baselineCacheMedian, before, rows, after, store.rows);
      if baselineCacheStart != 0 {
        if before % 2 == 0 && baselineCacheRevision == before && after == before + 2 && row.ts >= baselineCacheStart {
          MedianAfterSettle(baselineCacheRaw, baselineCacheStart, baselineCacheMedian, before, rows, row);
          baselineCacheRevision := after;
        } else {
          ClearBaselineCache();
          ClearedIsKept(baselineCacheStart, baselineCacheMedian, after, store.rows);
        }
      }
    }

    /** Both caches after a row was inserted for the open entry `index`. */
    method AbsorbSettled(ghost index: nat, row: Row, agentDay: CacheKey, before: nat, ghost rows: seq<Row>)
      requires Awaiting(before, rows)
      requires index < |log| && log[index].status == Safety.Open && log[index].agent == row.agent
      requires agentDay == CacheKey(calendar.local(Daily, log[index].ts), row.agent)
      requires store.revision >= before + 2
      requires before % 2 == 0 && store.revision == before + 2 ==> store.rows == rows + [row]
      modifies this`cacheReady, this`cacheRevision, this`usageCache, this`activeGlobalKeys, this`agentCacheDay, this`agentCacheEntries
      modifies this`baselineCacheRaw, this`baselineCacheStart, this`baselineCacheRevision, this`baselineCacheMedian
      modifies this`orderly, this`sole
      ensures CacheKept([])
      ensures orderly == (old(orderly) && row.ts == log[index].ts)
      ensures sole == (old(sole) && store.rows == rows + [row])
    {
      hide Warm, Near, MedianKept, AgentDayFits, BooksAgree;
      if row.ts == log[index].ts {
        AgentDayHolds(calendar, Reserved(), log, index, orderly, lastNow, sole, rows, agentCacheDay, row);
      }
      AbsorbUsage(row, agentDay, before, rows, orderly && row.ts == log[index].ts);
      AbsorbMedian(row, before, rows);
    }

    /** The insert failed: only the revision, and what others did meanwhile, has moved. */
    method AbsorbFailed(ghost before: nat, ghost rows: seq<Row>)
      requires Awaiting(before, rows) && store.revision > before
      modifies this`sole
      ensures Books() && CacheKept([])
      ensures sole == (old(sole) && store.rows == rows)
    {
      hide BooksAgree, Warm, Near, MedianKept;
      ghost var was := sole;
      sole := sole && store.rows == rows;
      BooksAfterDrift(calendar, Reserved(), log, orderly, lastNow, was, rows, sole, store.rows);
      WarmStale(cacheReady, cacheRevision, usageCache, bases, before, rows, orderly, store.revision, store.rows);
      StaleIsKept(baselineCacheRaw, baselineCacheStart, baselineCacheRevision, baselineCacheMedian, before, rows, store.revision, store.rows);
    }

    /** Foreign writes between calls leave the guard valid: its caches notice the new revision. */
    method Intrude(w: Writes)
      requires Valid()
      modifies this`sole, store`rows, store`revision
      ensures Valid() && log == old(log)
    {
      hide BooksAgree, CacheKept;
      Yield(w, []);
      BooksAfterDrift(calendar, Reserved(), log, orderly, lastNow, old(sole), old(store.rows), sole, store.rows);
    }
  }

  /** An admission refuses what the check refuses and otherwise prices what it read. */
  lemma CheckThenGrant(standing: Standing, readings: seq<Reading>, settings: Settings, calendar: Calendar, trip: Option<int>,
                       now: int, agent: string, rows: seq<Row>, held: Held, estimate: Estimate)
    requires ValidSettings(settings)
    ensures StandingIs(standing, readings, settings, calendar, trip, now, agent, rows, held) ==>
              (standing.Denied? ==> Admission(settings, calendar, trip, now, agent, rows, held, estimate) == Refused(standing.denial))
              && (standing.Clear? ==> Admission(settings, calendar, trip, now, agent, rows, held, estimate) == Grant(readings, estimate, now, settings.cooldown))
  {
    hide Check, Positions, Readings, Grant;
  }

  lemma DriftNone(revision: nat, rows: seq<Row>, sole: bool)
    ensures Drifted(revision, rows, sole, revision, rows, sole)
  {
  }

  lemma CalmSaves(world: World)
    ensures CalmWorld(world) ==> world.tripOk
  {
  }

  lemma EmptyIsWarm(revision: nat, bases: map<CacheKey, int>, rows: seq<Row>, orderly: bool)
    ensures Warm(true, revision, map[], bases, revision, rows, orderly)
  {
  }

  lemma NearKinds(cache: Cache, active: set<CacheKey>, day: int, count: int, extra: seq<CacheKey>)
    requires Near(cache, active, day, count, extra)
    ensures forall k :: k in active ==> k.agent == ""
  {
  }

  lemma CrossedInPrefix(readings: seq<Reading>, n: nat, amount: real)
    requires n <= |readings| && FirstCrossed(readings[..n], amount).Some?
    ensures FirstCrossed(readings, amount) == FirstCrossed(readings[..n], amount)
  {
    if n < |readings| {
      assert readings[..|readings| - 1][..n] == readings[..n];
      CrossedInPrefix(readings[..|readings| - 1], n, amount);
    } else {
      assert readings[..n] == readings;
    }
  }

  /** No foreign write landed during the call, earlier calls kept their order, and the baseline
      slot starts on a second. */
  predicate Undisturbed(settings: Settings, now: int, orderly: bool, revision: nat, after: nat)
    requires ValidSettings(settings)
  {
    orderly && WholeBaseline(settings, now) && after == revision && revision % 2 == 0
  }

  ghost predicate StandingIs(standing: Standing, readings: seq<Reading>, settings: Settings, calendar: Calendar, trip: Option<int>,
                             now: int, agent: string, rows: seq<Row>, held: Held)
    requires ValidSettings(settings)
  {
    var objection := Check(settings, calendar, trip, now, agent, rows, held);
    match standing
    case Failed => true
    case Denied(denial) => objection == Some(denial)
    case Clear => objection.None? && readings == Readings(Positions(settings, calendar, now, agent, rows), rows, held)
  }

  predicate CalmWorld(world: World) {
    world.settingsOk && world.tripOk && Calm(world.loads(0)) && Calm(world.histories(0))
  }

  lemma CheckKeysKinds(settings: Settings, calendar: Calendar, now: int, agent: string)
    requires ValidSettings(settings) && TrueCalendar(calendar)
    ensures forall k :: k in GlobalKeys(settings, calendar, now) ==> k.agent == ""
    ensures forall k :: k in CheckKeys(settings, calendar, now, agent) ==>
              if k.agent == "" then k in GlobalKeys(settings, calendar, now) else k == CacheKey(calendar.local(Daily, now), agent)
    ensures WholeBaseline(settings, now) ==> forall k :: k in CheckKeys(settings, calendar, now, agent) ==> Whole(k.start)
  {
    hide FixedGauges, RollingStart, BaselineStart, Whole;
    FixedGaugesWhole(settings, calendar, now);
    if settings.fanout.Some? {
      RollingIsWhole(now, settings.fanout.value.0);
    }
    assert Whole(calendar.local(Daily, now));
  }

  /** Cutoffs a check asks for: fixed windows, baseline, fan-out, then the agent's own. */
  function CheckKeys(settings: Settings, calendar: Calendar, now: int, agent: string): seq<CacheKey>
    requires ValidSettings(settings)
  {
    GlobalKeys(settings, calendar, now) + KeysOf(AgentGauges(settings, calendar, now, agent))
  }

  function GlobalKeys(settings: Settings, calendar: Calendar, now: int): seq<CacheKey>
    requires ValidSettings(settings)
  {
    KeysOf(FixedGauges(settings, calendar, now)) + BaselineKeys(settings, now) + FanoutKeys(settings, now)
  }

  ghost predicate AllKeysAgree(keys: seq<CacheKey>, usages: seq<Usage>, rows: seq<Row>) {
    |usages| == |keys| && forall i :: 0 <= i < |keys| ==> AgreesOn(keys[i], usages[i], rows)
  }

  lemma CheckKeysInParts(settings: Settings, calendar: Calendar, now: int, agent: string, usages: seq<Usage>, rows: seq<Row>)
    requires ValidSettings(settings) && |usages| == |CheckKeys(settings, calendar, now, agent)|
    ensures var fixed, agents := FixedGauges(settings, calendar, now), AgentGauges(settings, calendar, now, agent);
            var m, k := |fixed| + |BaselineKeys(settings, now)|, |usages| - |agents|;
            |fixed| <= m <= k <= |usages| && k == m + |FanoutKeys(settings, now)|
            && (AllKeysAgree(CheckKeys(settings, calendar, now, agent), usages, rows)
                ==> AllAgree(fixed, usages[..m][..|fixed|], rows) && AllAgree(agents, usages[k..], rows)
                    && (settings.baseline.Some? ==> AgreesOn(BaselineKeys(settings, now)[0], usages[..m][|fixed|], rows))
                    && (settings.fanout.Some? ==> AgreesOn(FanoutKeys(settings, now)[0], usages[m], rows)))
  {
    hide FixedGauges, AgreesOn, AgentGauges, RollingStart, BaselineStart, AllAgree, AllKeysAgree;
    var fixed, agents := FixedGauges(settings, calendar, now), AgentGauges(settings, calendar, now, agent);
    var base, fan := BaselineKeys(settings, now), FanoutKeys(settings, now);
    var m, k := |fixed| + |base|, |usages| - |agents|;
    AgreeOnParts(KeysOf(fixed) + base + fan, KeysOf(agents), usages, rows);
    AgreeOnParts(KeysOf(fixed) + base, fan, usages[..k], rows);
    AgreeOnParts(KeysOf(fixed), base, usages[..m], rows);
    assert usages[..k][..m] == usages[..m];
    AgreeOnGauges(fixed, usages[..m][..|fixed|], rows);
    AgreeOnGauges(agents, usages[k..], rows);
    FirstAgrees(base, usages[..m][|fixed|..], rows);
    FirstAgrees(fan, usages[..k][m..], rows);
  }

  lemma AgreeOnParts(a: seq<CacheKey>, b: seq<CacheKey>, usages: seq<Usage>, rows: seq<Row>)
    requires |usages| == |a| + |b|
    ensures AllKeysAgree(a + b, usages, rows) ==> AllKeysAgree(a, usages[..|a|], rows) && AllKeysAgree(b, usages[|a|..], rows)
  {
    hide AgreesOn;
    if AllKeysAgree(a + b, usages, rows) {
      forall i | 0 <= i < |b| ensures AgreesOn(b[i], usages[|a|..][i], rows) {
        assert (a + b)[|a| + i] == b[i];
      }
      forall i | 0 <= i < |a| ensures AgreesOn(a[i], usages[..|a|][i], rows) {
        assert (a + b)[i] == a[i];
      }
    }
  }

  lemma AgreeOnGauges(gauges: seq<Gauge>, usages: seq<Usage>, rows: seq<Row>)
    ensures AllKeysAgree(KeysOf(gauges), usages, rows) ==> AllAgree(gauges, usages, rows)
  {
    hide AgreesOn;
  }

  lemma FirstAgrees(keys: seq<CacheKey>, usages: seq<Usage>, rows: seq<Row>)
    ensures AllKeysAgree(keys, usages, rows) && keys != [] ==> AgreesOn(keys[0], usages[0], rows)
  {
    hide AgreesOn;
  }

  lemma NoBreaker(settings: Settings, now: int, rows: seq<Row>, held: Held)
    ensures settings.fanout.None? ==> FanoutObjection(settings, rows, held, now).None?
  {
  }

  lemma FanoutSays(settings: Settings, now: int, usage: Usage, rows: seq<Row>, held: Held, room: bool)
    requires settings.fanout.Some? && (room <==> usage.requests + held.inFlight < settings.fanout.value.1)
    ensures AgreesOn(FanoutKeys(settings, now)[0], usage, rows) ==>
              FanoutObjection(settings, rows, held, now) == if room then None else Some(FanoutTripped(now + settings.cooldown))
  {
  }

  /** An objection of the shared windows is the check's own, and no finding is never wrong. */
  lemma SharedDecides(finding: Finding, settings: Settings, calendar: Calendar, now: int, agent: string, rows: seq<Row>, held: Held)
    requires ValidSettings(settings)
    ensures !finding.NoObjection? && SharedFinding(finding, settings, calendar, now, rows, held)
            ==> WindowsFinding(finding, settings, calendar, now, agent, rows, held)
  {
    hide SharedGauges, AgentGauges, Readings, FirstObjection, FanoutObjection;
  }

  lemma FanoutDecides(shared: seq<Reading>, settings: Settings, calendar: Calendar, now: int, agent: string, rows: seq<Row>, held: Held)
    requires ValidSettings(settings)
    ensures SharedFinding(NoObjection(shared), settings, calendar, now, rows, held) && FanoutObjection(settings, rows, held, now).Some?
            ==> WindowsFinding(Objects(FanoutObjection(settings, rows, held, now).value), settings, calendar, now, agent, rows, held)
  {
    hide SharedGauges, AgentGauges, Readings, FirstObjection, FanoutObjection;
  }

  lemma OwnDecides(shared: seq<Reading>, own: seq<Reading>, objection: Option<Denial>, settings: Settings, calendar: Calendar, now: int, agent: string,
                   usages: seq<Usage>, rows: seq<Row>, held: Held)
    requires ValidSettings(settings) && |usages| == |AgentGauges(settings, calendar, now, agent)|
    requires var agents := AgentGauges(settings, calendar, now, agent);
             objection == FirstObjection(Seen(agents, usages, held), now, settings.cooldown)
             && (objection.None? ==> own == Seen(agents, usages, held))
    ensures SharedFinding(NoObjection(shared), settings, calendar, now, rows, held) && FanoutObjection(settings, rows, held, now).None?
            && AllAgree(AgentGauges(settings, calendar, now, agent), usages, rows)
            ==> WindowsFinding(if objection.Some? then Objects(objection.value) else NoObjection(shared + own), settings, calendar, now, agent, rows, held)
  {
    hide SharedGauges, AgentGauges, Readings, FirstObjection, FanoutObjection, AllAgree;
    var agents := AgentGauges(settings, calendar, now, agent);
    if AllAgree(agents, usages, rows) {
      SeenIsRead(agents, usages, rows, held);
    }
    ReadingsConcat(SharedGauges(settings, calendar, now, rows), agents, rows, held);
  }

  /** The whole standing check, as the ledger itself would give it. */
  ghost predicate WindowsFinding(finding: Finding, settings: Settings, calendar: Calendar, now: int, agent: string, rows: seq<Row>, held: Held)
    requires ValidSettings(settings)
  {
    var objection := WindowsObjection(settings, calendar, now, agent, rows, held);
    match finding
    case Unsure => true
    case Objects(denial) => objection == Some(denial)
    case NoObjection(readings) =>
      objection.None? && readings == Readings(Positions(settings, calendar, now, agent, rows), rows, held)
  }

  /** A finding about the shared windows, as the ledger itself would give it. */
  ghost predicate SharedFinding(finding: Finding, settings: Settings, calendar: Calendar, now: int, rows: seq<Row>, held: Held)
    requires ValidSettings(settings)
  {
    var read := Readings(SharedGauges(settings, calendar, now, rows), rows, held);
    var objection := FirstObjection(read, now, settings.cooldown);
    match finding
    case Unsure => true
    case Objects(denial) => objection == Some(denial)
    case NoObjection(readings) => objection.None? && readings == read
  }

  lemma SharedFound(settings: Settings, calendar: Calendar, now: int, usages: seq<Usage>, rows: seq<Row>, held: Held)
    requires ValidSettings(settings) && |usages| == |FixedGauges(settings, calendar, now)| + |BaselineKeys(settings, now)|
    ensures var fixed := FixedGauges(settings, calendar, now);
            var m := |fixed|;
            var base := BaselineGauges(settings, now, rows);
            var read := Readings(SharedGauges(settings, calendar, now, rows), rows, held);
            AllAgree(fixed, usages[..m], rows)
            && (settings.baseline.Some? ==> AgreesOn(BaselineKeys(settings, now)[0], usages[m], rows))
            ==> |base| == |usages| - m && read == Seen(fixed, usages[..m], held) + Seen(base, usages[m..], held)
                && FirstObjection(read, now, settings.cooldown)
                   == (if FirstObjection(Seen(fixed, usages[..m], held), now, settings.cooldown).Some?
                       then FirstObjection(Seen(fixed, usages[..m], held), now, settings.cooldown)
                       else FirstObjection(Seen(base, usages[m..], held), now, settings.cooldown))
                && (base == [] ==> FirstObjection(read, now, settings.cooldown) == FirstObjection(Seen(fixed, usages[..m], held), now, settings.cooldown)
                                   && read == Seen(fixed, usages[..m], held))
  {
    hide FixedGauges, AgreesOn, ReadUsage, BaselineMedian, SharedGauges, Readings;
    var fixed := FixedGauges(settings, calendar, now);
    var m := |fixed|;
    if AllAgree(fixed, usages[..m], rows) && (settings.baseline.Some? ==> AgreesOn(BaselineKeys(settings, now)[0], usages[m], rows)) {
      var base := BaselineGauges(settings, now, rows);
      SeenIsRead(fixed, usages[..m], rows, held);
      assert AllAgree(base, usages[m..], rows);
      SeenIsRead(base, usages[m..], rows, held);
      SharedInParts(settings, calendar, now, rows, held);
      if base == [] {
        assert Seen(base, usages[m..], held) == [];
      }
    }
  }

  lemma OneBaseline(settings: Settings, now: int, rows: seq<Row>, median: real)
    requires ValidSettings(settings) && settings.baseline.Some?
    requires median == BaselineMedian(rows, settings.baseline.value, BaselineStart(now, settings.baseline.value.window))
    ensures var b := settings.baseline.value;
            BaselineGauges(settings, now, rows) == [BaselineGauge(BaselineStart(now, b.window), MaxReal(b.minimumUSD, median * b.multiplier))]
  {
    hide BaselineMedian, BaselineStart;
  }

  lemma SharedConcludes(settings: Settings, calendar: Calendar, now: int, usages: seq<Usage>, rows: seq<Row>, held: Held, median: real,
                        readings: seq<Reading>, crossed: Option<Denial>, last: seq<Reading>)
    requires ValidSettings(settings) && |usages| == |FixedGauges(settings, calendar, now)| + |BaselineKeys(settings, now)|
    requires settings.baseline.Some? && median == BaselineMedian(rows, settings.baseline.value, BaselineStart(now, settings.baseline.value.window))
    requires var fixed := FixedGauges(settings, calendar, now);
             readings == Seen(fixed, usages[..|fixed|], held) && FirstObjection(readings, now, settings.cooldown).None?
    requires var b, m := settings.baseline.value, |FixedGauges(settings, calendar, now)|;
             var own := Seen([BaselineGauge(BaselineStart(now, b.window), MaxReal(b.minimumUSD, median * b.multiplier))], usages[m..], held);
             crossed == FirstObjection(own, now, settings.cooldown) && (crossed.None? ==> last == own)
    ensures AllAgree(FixedGauges(settings, calendar, now), usages[..|FixedGauges(settings, calendar, now)|], rows)
            && AgreesOn(BaselineKeys(settings, now)[0], usages[|FixedGauges(settings, calendar, now)|], rows)
            ==> SharedFinding(if crossed.Some? then Objects(crossed.value) else NoObjection(readings + last), settings, calendar, now, rows, held)
  {
    hide FixedGauges, AgreesOn, AllAgree, BaselineMedian, BaselineStart, FirstObjection, Seen, SharedGauges, Readings, BaselineGauges;
    OneBaseline(settings, now, rows, median);
    SharedFound(settings, calendar, now, usages, rows, held);
  }

  lemma AtMostOne(s: set<CacheKey>)
    requires forall k, l :: k in s && l in s ==> k == l
    ensures |s| <= 1
  {
    if s != {} {
      var k :| k in s;
      assert s == {k};
    }
  }

  class Reservation {
    const guard: Guard
    const agent: string
    const amount: real
    const agentDay: CacheKey
    ghost const index: nat
    var done: bool

    constructor (guard: Guard, agent: string, amount: real, agentDay: CacheKey, ghost index: nat)
      ensures this.guard == guard && this.agent == agent && this.amount == amount && this.agentDay == agentDay
      ensures this.index == index && !done
    {
      this.guard := guard;
      this.agent := agent;
      this.amount := amount;
      this.agentDay := agentDay;
      this.index := index;
      done := false;
    }

    ghost predicate Tracks(e: Safety.Entry, calendar: Calendar)
      reads this
    {
      agent == e.agent && amount == e.amount && (done <==> e.status != Safety.Open)
      && agentDay == CacheKey(calendar.local(Daily, e.ts), agent)
    }

    ghost predicate Issued()
      reads guard
    {
      index < |guard.issued| && guard.issued[index] == this
    }

    /** Gives the reservation back, once. */
    method Release()
      requires guard.Valid() && Issued()
      modifies this`done, guard`reservedUSD, guard`reservedByAgent, guard`inFlight, guard`log
      ensures guard.Valid() && done
      ensures old(done) ==> Untouched(old(guard.log), guard.log, old(guard.Reserved()), guard.Reserved())
      ensures !old(done) ==> SettledAs(index, Safety.Freed, old(guard.log), guard.log, old(guard.Reserved()), guard.Reserved())
    {
      hide BooksAgree, Warm, Near, MedianKept, Returned;
      if done {
        return;
      }
      assert Tracks(guard.log[index], guard.calendar);
      BooksAfterFree(guard.calendar, guard.Reserved(), guard.log, index, guard.orderly, guard.lastNow, guard.sole, guard.store.rows);
      ReleaseLocked(Safety.Freed);
    }

    method ReleaseLocked(ghost status: Safety.Status)
      requires !done && index < |guard.log|
      modifies this`done, guard`reservedUSD, guard`reservedByAgent, guard`inFlight, guard`log
      ensures done && guard.Reserved() == Returned(old(guard.Reserved()), agent, amount)
      ensures guard.log == old(guard.log)[index := old(guard.log)[index].(status := status)]
    {
      guard.reservedUSD := MaxReal(0.0, guard.reservedUSD - amount);
      if agent != "" {
        var left := MaxReal(0.0, (if agent in guard.reservedByAgent then guard.reservedByAgent[agent] else 0.0) - amount);
        guard.reservedByAgent := if left == 0.0 then guard.reservedByAgent - {agent} else guard.reservedByAgent[agent := left];
      }
      if guard.inFlight > 0 {
        guard.inFlight := guard.inFlight - 1;
      }
      done := true;
      guard.log := guard.log[index := guard.log[index].(status := status)];
    }

    /** Inserts the row, updates every warm window and gives the reservation back, as one step; when
        the insert fails the reservation stays held. `ts` is None for a missing timestamp. */
    method Settle(ts: Option<int>, agent: string, cost: real, unsafe: bool, insertOk: bool, waiting: Writes) returns (ok: bool)
      requires guard.Valid() && Issued()
      modifies this`done, guard, guard.store`rows, guard.store`revision
      ensures guard.Valid() && guard.issued == old(guard.issued) && guard.lastNow == old(guard.lastNow)
      ensures ok <==> agent == this.agent && ts.Some? && cost >= 0.0 && (insertOk || old(done))
      ensures !ok || old(done) ==> Untouched(old(guard.log), guard.log, old(guard.Reserved()), guard.Reserved()) && done == old(done) && guard.orderly == old(guard.orderly)
      ensures ok && !old(done) ==>
                done && SettledAs(index, Safety.Settled(cost, unsafe), old(guard.log), guard.log, old(guard.Reserved()), guard.Reserved())
                && guard.orderly == (old(guard.orderly) && ts.value == old(guard.log)[index].ts)
      ensures old(guard.sole) && waiting.bumps == 0 && old(guard.store.revision) % 2 == 0 ==> guard.sole
      ensures old(guard.store.revision) % 2 == 0 ==> guard.store.revision % 2 == 0
      ensures guard.store.trip == old(guard.store.trip)
    {
      hide BooksAgree, Warm, Near, MedianKept, SettledAs;
      if agent != this.agent || ts.None? || cost < 0.0 {
        return false;
      }
      if done {
        return true;
      }
      var row := Row(ts.value, agent, cost, unsafe);
      ghost var rows := guard.store.rows;
      var before := guard.store.revision;
      assert guard.Awaiting(before, rows);
      var inserted := guard.store.Insert(row, insertOk, waiting);
      if !inserted {
        guard.AbsorbFailed(before, rows);
        return false;
      }
      Finish(row, before, rows);
      return true;
    }

    method Finish(row: Row, before: nat, ghost rows: seq<Row>)
      requires guard.Awaiting(before, rows) && guard.IssuedTrack() && Issued() && !done
      requires row.agent == agent && row.cost >= 0.0 && guard.store.revision >= before + 2
      requires before % 2 == 0 && guard.store.revision == before + 2 ==> guard.store.rows == rows + [row]
      modifies this`done, guard
      ensures guard.Valid() && guard.issued == old(guard.issued) && guard.lastNow == old(guard.lastNow) && done
      ensures SettledAs(index, Safety.Settled(row.cost, row.unsafe), old(guard.log), guard.log, old(guard.Reserved()), guard.Reserved())
      ensures guard.orderly == (old(guard.orderly) && row.ts == old(guard.log)[index].ts)
      ensures guard.sole == (old(guard.sole) && guard.store.rows == rows + [row])
    {
      hide BooksAgree, Warm, Near, MedianKept, Returned;
      assert Tracks(guard.log[index], guard.calendar);
      BooksAfterSettle(guard.calendar, guard.Reserved(), guard.log, index, row, guard.orderly, guard.lastNow, guard.sole, rows,
                       guard.orderly && row.ts == guard.log[index].ts, guard.sole && guard.store.rows == rows + [row], guard.store.rows);
      guard.AbsorbSettled(index, row, agentDay, before, rows);
      ReleaseLocked(Safety.Settled(row.cost, row.unsafe));
    }
  }

  ghost predicate Untouched(log: Log, nowLog: Log, held: Held, nowHeld: Held) {
    nowLog == log && nowHeld == held
  }

  /** Entry `index` is closed with this status and its share of the counters is given back. */
  ghost predicate SettledAs(index: nat, status: Safety.Status, log: Log, nowLog: Log, held: Held, nowHeld: Held) {
    index < |log| && nowLog == log[index := log[index].(status := status)]
    && nowHeld == Returned(held, log[index].agent, log[index].amount)
  }
}
