/** The guard's warm usage cache, as values: what an entry must say about the ledger, what a
    settled row does to it, and exactly when the two agree. */
module BudgetCache {
  import opened Common
  import opened Budget

  datatype CacheKey = CacheKey(start: int, agent: string)

  type Cache = map<CacheKey, Usage>

  /** What a fresh load returns. The per-agent query does not count requests. */
  function Load(rows: seq<Row>, key: CacheKey): Usage {
    var usage := UsageSince(rows, key.start, key.agent);
    if key.agent == "" then usage else usage.(requests := 0)
  }

  predicate Whole(start: int) { start % SECOND == 0 }

  /** An entry agrees with the ledger; an agent entry's request count lacks the `base` requests
      that were already there when it was loaded. */
  ghost predicate Fits(rows: seq<Row>, key: CacheKey, usage: Usage, base: int) {
    var truth := UsageSince(rows, key.start, key.agent);
    usage.spent == truth.spent && usage.gaps == truth.gaps
    && usage.requests == truth.requests - (if key.agent == "" then 0 else base)
  }

  ghost predicate Coherent(cache: Cache, bases: map<CacheKey, int>, rows: seq<Row>) {
    forall key :: key in cache && Whole(key.start) ==> key in bases && Fits(rows, key, cache[key], bases[key])
  }

  /** Adds a settled row to one warm entry, comparing nanoseconds. */
  function Bumped(key: CacheKey, usage: Usage, row: Row): Usage {
    if row.ts < key.start || (key.agent != "" && key.agent != row.agent) then usage
    else Usage(usage.spent + row.cost, usage.gaps + (if row.unsafe then 1 else 0), usage.requests + 1)
  }

  function AddSettled(cache: Cache, key: CacheKey, row: Row): (r: Cache)
    ensures r.Keys == cache.Keys
    ensures forall k :: k in cache ==> r[k] == if k == key then Bumped(k, cache[k], row) else cache[k]
  {
    if key in cache then cache[key := Bumped(key, cache[key], row)] else cache
  }

  /** Comparing nanoseconds is comparing seconds exactly for windows that start on a second. */
  lemma WholeStartsAgree(start: int)
    requires start >= 0
    ensures Whole(start) <==> forall ts :: ts >= 0 ==> (start <= ts <==> Sec(start) <= Sec(ts))
  {
    if Whole(start) {
      forall ts | ts >= 0 ensures start <= ts <==> Sec(start) <= Sec(ts) {
        if start <= ts { SecOrder(start, ts); }
        if Sec(start) <= Sec(ts) { SecFloor(start, ts); }
      }
    } else {
      var ts := Sec(start) * SECOND;
      assert 0 <= ts < start && Sec(ts) == Sec(start);
    }
  }

  lemma SecOrder(a: int, b: int)
    requires a <= b
    ensures Sec(a) <= Sec(b)
  {
  }

  lemma SecFloor(start: int, ts: int)
    requires Whole(start) && Sec(start) <= Sec(ts)
    ensures start <= ts
  {
  }

  /** One bump keeps an entry in agreement with the ledger that gained the row. */
  lemma BumpFits(rows: seq<Row>, key: CacheKey, usage: Usage, base: int, row: Row)
    requires Fits(rows, key, usage, base) && Whole(key.start)
    ensures Fits(rows + [row], key, Bumped(key, usage, row), base)
  {
    UsageAppend(rows, row, key.start, key.agent);
    if key.start <= row.ts { SecOrder(key.start, row.ts); }
    if Sec(key.start) <= Sec(row.ts) { SecFloor(key.start, row.ts); }
  }

  /** An entry that is not bumped stays in agreement exactly when its window and agent do not cover
      the row. */
  lemma UnbumpedFitsExactly(rows: seq<Row>, key: CacheKey, usage: Usage, base: int, row: Row)
    requires Fits(rows, key, usage, base)
    ensures Fits(rows + [row], key, usage, base) <==> !Counted(row, key.start, key.agent)
  {
    UsageAppend(rows, row, key.start, key.agent);
  }

  /** After a settlement that bumped every active global key and the admission day's agent key,
      the cache agrees with the new ledger: other agents' entries do not cover the row, and an
      entry for a later day starts after it. */
  lemma SettledCoherent(before: Cache, after: Cache, bases: map<CacheKey, int>, rows: seq<Row>, row: Row,
                        globals: set<CacheKey>, agentDay: CacheKey, lastDay: int)
    requires Coherent(before, bases, rows) && after.Keys == before.Keys
    requires forall k :: k in before ==> after[k] == if k in globals || (row.agent != "" && k == agentDay) then Bumped(k, before[k], row) else before[k]
    requires forall k :: k in before && k.agent == "" ==> k in globals
    requires forall k :: k in globals ==> k.agent == ""
    requires forall k :: k in before && k.agent != "" ==> k.start == lastDay
    requires agentDay.agent == row.agent && (agentDay.start == lastDay || (row.ts < lastDay && Whole(lastDay)))
    ensures Coherent(after, bases, rows + [row])
  {
    forall key | key in after && Whole(key.start) ensures key in bases && Fits(rows + [row], key, after[key], bases[key]) {
      assert Fits(rows, key, before[key], bases[key]);
      if key in globals || (row.agent != "" && key == agentDay) {
        BumpFits(rows, key, before[key], bases[key], row);
      } else {
        if key.agent == row.agent {
          assert row.ts < key.start;
          if Sec(key.start) <= Sec(row.ts) { SecFloor(key.start, row.ts); }
        }
        UnbumpedFitsExactly(rows, key, before[key], bases[key], row);
      }
    }
  }

  // ----- where agreement stops -----

  /** One bump keeps every entry of a key in agreement, for every ledger and row, exactly when the
      key's window starts on a whole second. */
  lemma BumpFitsExactly(key: CacheKey)
    ensures Whole(key.start)
            <==> forall rows: seq<Row>, usage: Usage, base: int, row: Row :: Fits(rows, key, usage, base)
                   ==> Fits(rows + [row], key, Bumped(key, usage, row), base)
  {
    hide Whole, Fits, Bumped;
    if Whole(key.start) {
      forall rows: seq<Row>, usage: Usage, base: int, row: Row | Fits(rows, key, usage, base)
        ensures Fits(rows + [row], key, Bumped(key, usage, row), base)
      {
        BumpFits(rows, key, usage, base, row);
      }
    } else {
      var row, usage := BumpMisses(key);
    }
  }

  lemma BumpMisses(key: CacheKey) returns (row: Row, usage: Usage)
    requires !Whole(key.start)
    ensures Fits([], key, usage, 0) && !Fits([] + [row], key, Bumped(key, usage, row), 0)
  {
    row, usage := Row(Sec(key.start) * SECOND, key.agent, 1.0, false), Usage(0.0, 0, 0);
    assert Sec(row.ts) == Sec(key.start) && row.ts < key.start;
    UsageAppend([], row, key.start, key.agent);
    assert Counted(row, key.start, key.agent);
    assert UsageSince([] + [row], key.start, key.agent).spent == 1.0;
  }

  /** Such starts occur: 67.5 seconds is an allowed baseline window, and the slot of 80 seconds past
      the epoch starts inside a second. A row from earlier in that second is counted by the ledger
      and not by the cache. */
  lemma FractionalStartDisagrees(rows: seq<Row>)
    ensures var window, now := 67_500_000_000, 80 * SECOND;
            var key, row := CacheKey(BaselineStart(now, window), ""), Row(67_200_000_000, "a", 1.0, false);
            60 * SECOND <= window <= DAY && DAY % window == 0 && !Whole(key.start)
            && Fits(rows, key, Load(rows, key), 0) && !Fits(rows + [row], key, Bumped(key, Load(rows, key), row), 0)
  {
    var key, row := CacheKey(67_500_000_000, ""), Row(67_200_000_000, "a", 1.0, false);
    assert BaselineStart(80 * SECOND, 67_500_000_000) == 67_500_000_000;
    UsageAppend(rows, row, key.start, key.agent);
  }

  /** An agent entry shows the ledger's request count exactly when it was loaded from an empty
      window; otherwise it lags by the requests present then. Spend and gaps always agree. */
  lemma AgentRequestsLag(rows: seq<Row>, key: CacheKey, usage: Usage, base: int)
    requires key.agent != "" && Fits(rows, key, usage, base)
    ensures usage.requests == UsageSince(rows, key.start, key.agent).requests <==> base == 0
  {
  }

  lemma LoadFits(rows: seq<Row>, key: CacheKey)
    ensures Fits(rows, key, Load(rows, key), UsageSince(rows, key.start, key.agent).requests)
  {
  }

  // ----- the cached baseline median -----

  lemma {:induction false} SpentAppend(rows: seq<Row>, row: Row, start: int, end: int)
    ensures SpentBetween(rows + [row], start, end)
            == SpentBetween(rows, start, end) + (if Sec(start) <= Sec(row.ts) < Sec(end) then row.cost else 0.0)
  {
    assert (rows + [row])[..|rows|] == rows;
  }

  /** A row in or after the current slot is in none of the earlier days' slots. */
  lemma MedianUnmoved(rows: seq<Row>, row: Row, b: Baseline, start: int)
    requires 0 < b.window <= DAY && start <= row.ts
    ensures BaselineMedian(rows + [row], b, start) == BaselineMedian(rows, b, start)
  {
    forall i | 0 <= i < b.days
      ensures HistorySpends(rows + [row], start, b.days, b.window)[i] == HistorySpends(rows, start, b.days, b.window)[i]
    {
      var from := start - (i + 1) * DAY;
      SpentAppend(rows, row, from, from + b.window);
      assert from + b.window <= start;
      SecOrder(from + b.window, row.ts);
    }
    assert HistorySpends(rows + [row], start, b.days, b.window) == HistorySpends(rows, start, b.days, b.window);
  }

  // ----- bounded agent entries -----

  function AgentKeys(cache: Cache): set<CacheKey> {
    set k | k in cache && k.agent != ""
  }

  lemma AgentKeysRemoved(cache: Cache, key: CacheKey)
    requires key in cache && key.agent != ""
    ensures |AgentKeys(cache - {key})| == |AgentKeys(cache)| - 1
  {
    assert AgentKeys(cache - {key}) == AgentKeys(cache) - {key};
  }

  lemma GlobalRemoved(cache: Cache, key: CacheKey)
    requires key.agent == ""
    ensures AgentKeys(cache - {key}) == AgentKeys(cache)
  {
  }

  lemma FewerAgentKeys(before: Cache, after: Cache)
    requires after.Keys <= before.Keys
    ensures |AgentKeys(after)| <= |AgentKeys(before)|
  {
    Subset(AgentKeys(after), AgentKeys(before));
  }

  lemma Subset(a: set<CacheKey>, b: set<CacheKey>)
    requires a <= b
    ensures |a| <= |b|
  {
    assert b == a + (b - a);
  }

  lemma AgentKeysAdded(cache: Cache, key: CacheKey, usage: Usage)
    ensures |AgentKeys(cache[key := usage])| == |AgentKeys(cache)| + (if key !in cache && key.agent != "" then 1 else 0)
  {
    assert AgentKeys(cache[key := usage]) == AgentKeys(cache) + (if key.agent != "" then {key} else {});
  }
}
