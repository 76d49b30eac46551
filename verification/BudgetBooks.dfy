/** What the live guard's fields stand for, as values: reservation counters against the log of
    module BudgetSafety, cache entries against the ledger, the ledger against the log. */
module BudgetBooks {
  import opened Common
  import opened Budget
  import opened BudgetCache
  import Safety = BudgetSafety

  type Log = Safety.Log

  const MAX_AGENT_ENTRIES: int := 4096

  // ----- what the guard's fields stand for -----

  /** Whole-second starts; a day starts no later than the instants in it and after those of every
      earlier day. */
  ghost predicate TrueCalendar(calendar: Calendar) {
    (forall w: WindowName, t: int :: Whole(calendar.local(w, t)) && Whole(calendar.utc(w, t)))
    && (forall t: int :: calendar.local(Daily, t) <= t)
    && (forall t: int, u: int :: calendar.local(Daily, t) < calendar.local(Daily, u) ==> t < calendar.local(Daily, u))
  }

  /** Reservation counters equal the sums over open entries, and no agent is remembered idle. */
  ghost predicate Accounts(held: Held, log: Log) {
    Safety.WellFormed(log) && Safety.Holds(held, log) && Remembered(held.byAgent, log)
  }

  ghost predicate Remembered(byAgent: map<string, real>, log: Log) {
    forall a :: a in byAgent ==> a != "" && exists i :: 0 <= i < |log| && log[i].status == Safety.Open && log[i].agent == a
  }

  /** Entries of the revision the store is still at agree with the ledger. */
  ghost predicate Warm(ready: bool, cacheRevision: nat, cache: Cache, bases: map<CacheKey, int>, revision: nat, rows: seq<Row>, orderly: bool) {
    cacheRevision <= revision && (!ready ==> cache == map[])
    && (cacheRevision == revision && revision % 2 == 0 && orderly ==> Coherent(cache, bases, rows))
  }

  /** Every entry is an active global one, one of the cached day's agents, or one of `extra`. */
  ghost predicate Near(cache: Cache, active: set<CacheKey>, day: int, count: int, extra: seq<CacheKey>) {
    (forall k :: k in cache && k.agent == "" ==> k in active || k in extra)
    && (forall k :: k in active ==> k.agent == "")
    && (forall k :: k in cache && k.agent != "" ==> (day != 0 && k.start == day) || k in extra)
    && count == |AgentKeys(cache)| <= MAX_AGENT_ENTRIES
  }

  ghost predicate MedianKept(raw: Option<Baseline>, start: int, at: nat, median: real, revision: nat, rows: seq<Row>) {
    at <= revision
    && (raw.Some? ==> 0 < raw.value.window <= DAY
                      && (at == revision && revision % 2 == 0 ==> median == BaselineMedian(rows, raw.value, start)))
  }

  /** The ledger holds the log's settled entries and nothing else, in whatever order. */
  ghost predicate Mirrors(rows: seq<Row>, log: Log) {
    (forall start: int, agent: string :: UsageSince(rows, start, agent) == UsageSince(Safety.RowsOf(log), start, agent))
    && (forall start: int, end: int :: SpentBetween(rows, start, end) == SpentBetween(Safety.RowsOf(log), start, end))
  }

  ghost predicate DaysInOrder(calendar: Calendar, log: Log, lastNow: Option<int>) {
    forall i :: 0 <= i < |log| && log[i].status == Safety.Open ==>
      lastNow.Some? && calendar.local(Daily, log[i].ts) <= calendar.local(Daily, lastNow.value)
  }

  // ----- accounting lemmas -----

  lemma {:induction false} OpenAfterStatus(log: Log, i: nat, status: Safety.Status, agent: string)
    requires i < |log| && log[i].status == Safety.Open && status != Safety.Open
    ensures var after := log[i := log[i].(status := status)];
            Safety.OpenUSD(after, agent)
            == Safety.OpenUSD(log, agent) - (if agent == "" || log[i].agent == agent then log[i].amount else 0.0)
            && Safety.OpenCount(after) == Safety.OpenCount(log) - 1
  {
    var n := |log| - 1;
    var after := log[i := log[i].(status := status)];
    if i < n {
      OpenAfterStatus(log[..n], i, status, agent);
      assert after[..n] == log[..n][i := log[..n][i].(status := status)];
    } else {
      assert after[..n] == log[..n];
    }
  }

  lemma OpenAppend(log: Log, e: Safety.Entry, agent: string)
    requires e.status == Safety.Open
    ensures Safety.OpenUSD(log + [e], agent)
            == Safety.OpenUSD(log, agent) + (if agent == "" || e.agent == agent then e.amount else 0.0)
    ensures Safety.OpenCount(log + [e]) == Safety.OpenCount(log) + 1
    ensures Safety.RowsOf(log + [e]) == Safety.RowsOf(log)
  {
    assert (log + [e])[..|log|] == log;
    assert Safety.RowsOf(log) + [] == Safety.RowsOf(log);
  }

  /** Open work is never negative, covers each open entry, and is owed to somebody. */
  lemma {:induction false} OpenBounds(log: Log, agent: string)
    requires Safety.WellFormed(log)
    ensures Safety.OpenUSD(log, agent) >= 0.0 && Safety.OpenCount(log) >= 0
    ensures forall i :: 0 <= i < |log| && log[i].status == Safety.Open ==>
              Safety.OpenCount(log) >= 1 && (agent == "" || log[i].agent == agent ==> Safety.OpenUSD(log, agent) >= log[i].amount)
    ensures Safety.OpenUSD(log, agent) > 0.0 ==>
              exists i :: 0 <= i < |log| && log[i].status == Safety.Open && (agent == "" || log[i].agent == agent)
    ensures (forall i :: 0 <= i < |log| ==> log[i].status != Safety.Open) ==> Safety.OpenUSD(log, agent) == 0.0 && Safety.OpenCount(log) == 0
  {
    if log != [] {
      var n := |log| - 1;
      OpenBounds(log[..n], agent);
      assert forall i :: 0 <= i < n ==> log[..n][i] == log[i];
    }
  }

  function Returned(held: Held, agent: string, amount: real): Held {
    var left := MaxReal(0.0, HeldFor(held, agent) - amount);
    Held(MaxReal(0.0, held.usd - amount),
         if agent == "" then held.byAgent
         else if left == 0.0 then held.byAgent - {agent} else held.byAgent[agent := left],
         if held.inFlight > 0 then held.inFlight - 1 else held.inFlight)
  }

  function Taken(held: Held, agent: string, amount: real): Held {
    Held(held.usd + amount,
         if agent == "" then held.byAgent else held.byAgent[agent := HeldFor(held, agent) + amount],
         held.inFlight + 1)
  }

  lemma AccountsAfterTake(held: Held, log: Log, e: Safety.Entry)
    requires Accounts(held, log) && e.status == Safety.Open && e.amount >= 0.0 && e.ts >= 0
    ensures Accounts(Taken(held, e.agent, e.amount), log + [e])
  {
    forall agent: string
      ensures Safety.OpenUSD(log + [e], agent)
              == Safety.OpenUSD(log, agent) + (if agent == "" || e.agent == agent then e.amount else 0.0)
      ensures Safety.OpenCount(log + [e]) == Safety.OpenCount(log) + 1
    {
      OpenAppend(log, e, agent);
    }
    forall a | a in Taken(held, e.agent, e.amount).byAgent
      ensures a != "" && exists i :: 0 <= i < |log + [e]| && (log + [e])[i].status == Safety.Open && (log + [e])[i].agent == a
    {
      if a == e.agent {
        assert (log + [e])[|log|] == e;
      } else {
        var i :| 0 <= i < |log| && log[i].status == Safety.Open && log[i].agent == a;
        assert (log + [e])[i] == log[i];
      }
    }
  }

  lemma AccountsAfterReturn(held: Held, log: Log, i: nat, status: Safety.Status)
    requires Accounts(held, log) && i < |log| && log[i].status == Safety.Open
    requires status == Safety.Freed || (status.Settled? && status.cost >= 0.0)
    ensures Accounts(Returned(held, log[i].agent, log[i].amount), log[i := log[i].(status := status)])
  {
    var e := log[i];
    var after := log[i := e.(status := status)];
    forall agent: string
      ensures Safety.OpenUSD(after, agent)
              == Safety.OpenUSD(log, agent) - (if agent == "" || e.agent == agent then e.amount else 0.0)
      ensures Safety.OpenCount(after) == Safety.OpenCount(log) - 1
      ensures Safety.OpenUSD(log, agent) >= 0.0 && Safety.OpenUSD(after, agent) >= 0.0 && Safety.OpenCount(log) >= 1
    {
      OpenAfterStatus(log, i, status, agent);
      OpenBounds(log, agent);
      OpenBounds(after, agent);
    }
    var back := Returned(held, e.agent, e.amount);
    assert back.usd == Safety.OpenUSD(after, "");
    forall a | a in back.byAgent
      ensures a != "" && exists j :: 0 <= j < |after| && after[j].status == Safety.Open && after[j].agent == a
    {
      if a == e.agent {
        OpenBounds(after, a);
      } else {
        var j :| 0 <= j < |log| && log[j].status == Safety.Open && log[j].agent == a;
        assert after[j] == log[j];
      }
    }
  }

  /** With nothing open, every counter is back where it started. */
  lemma QuiescentGuard(held: Held, log: Log)
    requires Accounts(held, log)
    requires forall i :: 0 <= i < |log| ==> log[i].status != Safety.Open
    ensures held == Held(0.0, map[], 0)
  {
    OpenBounds(log, "");
    assert held.byAgent == map[];
  }

  // ----- the ledger and the log -----

  lemma {:induction false} RowsAfterFree(log: Log, i: nat)
    requires i < |log| && log[i].status == Safety.Open
    ensures Safety.RowsOf(log[i := log[i].(status := Safety.Freed)]) == Safety.RowsOf(log)
  {
    var n := |log| - 1;
    var after := log[i := log[i].(status := Safety.Freed)];
    if i < n {
      RowsAfterFree(log[..n], i);
      assert after[..n] == log[..n][i := log[..n][i].(status := Safety.Freed)];
    } else {
      assert after[..n] == log[..n];
    }
  }

  function Plus(u: Usage, row: Row, start: int, agent: string): Usage {
    if Counted(row, start, agent) then Usage(u.spent + row.cost, u.gaps + (if row.unsafe then 1 else 0), u.requests + 1) else u
  }

  /** However early its entry, a settled row changes every total as an appended row does. */
  lemma {:induction false} TotalsAfterSettle(log: Log, i: nat, cost: real, unsafe: bool, start: int, end: int, agent: string)
    requires i < |log| && log[i].status == Safety.Open
    ensures var row, after := Row(log[i].ts, log[i].agent, cost, unsafe), log[i := log[i].(status := Safety.Settled(cost, unsafe))];
            UsageSince(Safety.RowsOf(after), start, agent) == Plus(UsageSince(Safety.RowsOf(log), start, agent), row, start, agent)
            && SpentBetween(Safety.RowsOf(after), start, end)
               == SpentBetween(Safety.RowsOf(log), start, end) + (if Sec(start) <= Sec(row.ts) < Sec(end) then cost else 0.0)
  {
    hide UsageSince, SpentBetween, Counted, Sec;
    var n := |log| - 1;
    var row := Row(log[i].ts, log[i].agent, cost, unsafe);
    var after := log[i := log[i].(status := Safety.Settled(cost, unsafe))];
    if i < n {
      TotalsAfterSettle(log[..n], i, cost, unsafe, start, end, agent);
      assert after[..n] == log[..n][i := log[..n][i].(status := Safety.Settled(cost, unsafe))];
      if log[n].status.Settled? {
        var last := Row(log[n].ts, log[n].agent, log[n].status.cost, log[n].status.unsafe);
        UsageAppend(Safety.RowsOf(log[..n]), last, start, agent);
        UsageAppend(Safety.RowsOf(after[..n]), last, start, agent);
        SpentAppend(Safety.RowsOf(log[..n]), last, start, end);
        SpentAppend(Safety.RowsOf(after[..n]), last, start, end);
      } else {
        assert forall rows: seq<Row> :: rows + [] == rows;
      }
    } else {
      assert after[..n] == log[..n];
      assert Safety.RowsOf(log[..n]) + [] == Safety.RowsOf(log[..n]);
      UsageAppend(Safety.RowsOf(log[..n]), row, start, agent);
      SpentAppend(Safety.RowsOf(log[..n]), row, start, end);
    }
  }

  lemma MirrorsAfterSettle(rows: seq<Row>, log: Log, i: nat, cost: real, unsafe: bool)
    requires Mirrors(rows, log) && i < |log| && log[i].status == Safety.Open
    ensures Mirrors(rows + [Row(log[i].ts, log[i].agent, cost, unsafe)], log[i := log[i].(status := Safety.Settled(cost, unsafe))])
  {
    hide UsageSince, SpentBetween, Counted, Sec;
    var row := Row(log[i].ts, log[i].agent, cost, unsafe);
    var after := log[i := log[i].(status := Safety.Settled(cost, unsafe))];
    forall start: int, agent: string
      ensures UsageSince(rows + [row], start, agent) == UsageSince(Safety.RowsOf(after), start, agent)
    {
      TotalsAfterSettle(log, i, cost, unsafe, start, start, agent);
      UsageAppend(rows, row, start, agent);
    }
    forall start: int, end: int
      ensures SpentBetween(rows + [row], start, end) == SpentBetween(Safety.RowsOf(after), start, end)
    {
      TotalsAfterSettle(log, i, cost, unsafe, start, end, "");
      SpentAppend(rows, row, start, end);
    }
  }

  lemma MirrorsAfterAppend(rows: seq<Row>, log: Log, e: Safety.Entry)
    requires Mirrors(rows, log) && e.status == Safety.Open
    ensures Mirrors(rows, log + [e])
  {
    OpenAppend(log, e, "");
  }

  lemma MirrorsAfterFree(rows: seq<Row>, log: Log, i: nat)
    requires Mirrors(rows, log) && i < |log| && log[i].status == Safety.Open
    ensures Mirrors(rows, log[i := log[i].(status := Safety.Freed)])
  {
    RowsAfterFree(log, i);
  }

  // ----- foreign writes -----

  /** What a stretch of foreign writes may do to the ledger. */
  ghost predicate Drifted(wasRevision: nat, wasRows: seq<Row>, wasSole: bool, revision: nat, rows: seq<Row>, sole: bool) {
    revision >= wasRevision
    && (revision == wasRevision && wasRevision % 2 == 0 ==> rows == wasRows && sole == wasSole)
    && (sole ==> wasSole && rows == wasRows)
  }

  // ----- readings taken through the cache -----

  function KeyOf(g: Gauge): CacheKey { CacheKey(g.start, GaugeAgent(g)) }

  function KeysOf(gauges: seq<Gauge>): (r: seq<CacheKey>)
    ensures |r| == |gauges|
    ensures forall i :: 0 <= i < |gauges| ==> r[i] == KeyOf(gauges[i])
  {
    seq(|gauges|, i requires 0 <= i < |gauges| => KeyOf(gauges[i]))
  }

  function ReadUsage(g: Gauge, usage: Usage, held: Held): Reading {
    Reading(g, usage.spent, if g.AgentGauge? then HeldFor(held, g.agent) else held.usd, usage.gaps)
  }

  ghost predicate AgreesOn(key: CacheKey, usage: Usage, rows: seq<Row>) {
    var truth := UsageSince(rows, key.start, key.agent);
    usage.spent == truth.spent && usage.gaps == truth.gaps && (key.agent == "" ==> usage == truth)
  }

  lemma ReadingsConcat(a: seq<Gauge>, b: seq<Gauge>, rows: seq<Row>, held: Held)
    ensures Readings(a + b, rows, held) == Readings(a, rows, held) + Readings(b, rows, held)
  {
    hide ReadGauge;
  }

  /** Local caps, external caps and fuses, in the order they are checked. */
  function FixedGauges(settings: Settings, calendar: Calendar, now: int): seq<Gauge> {
    CalendarGauges(settings, calendar, now) + FuseGauges(settings, now)
  }

  predicate WholeBaseline(settings: Settings, now: int)
    requires ValidSettings(settings)
  {
    settings.baseline.Some? ==> Whole(BaselineStart(now, settings.baseline.value.window))
  }

  function BaselineKeys(settings: Settings, now: int): seq<CacheKey>
    requires ValidSettings(settings)
  {
    match settings.baseline
    case Some(b) => [CacheKey(BaselineStart(now, b.window), "")]
    case None => []
  }

  function FanoutKeys(settings: Settings, now: int): seq<CacheKey> {
    match settings.fanout
    case Some((span, _)) => [CacheKey(RollingStart(now, span), "")]
    case None => []
  }

  ghost predicate GlobalAndWhole(gauges: seq<Gauge>) {
    forall i :: 0 <= i < |gauges| ==> Whole(gauges[i].start) && GaugeAgent(gauges[i]) == ""
  }

  lemma RollingIsWhole(now: int, span: int)
    ensures Whole(RollingStart(now, span))
  {
  }

  lemma WindowGaugesWhole(settings: Settings, calendar: Calendar, now: int, w: WindowName)
    requires TrueCalendar(calendar)
    ensures GlobalAndWhole(WindowGauges(settings, calendar, now, w))
  {
    hide Whole;
  }

  lemma FixedGaugesWhole(settings: Settings, calendar: Calendar, now: int)
    requires TrueCalendar(calendar)
    ensures GlobalAndWhole(FixedGauges(settings, calendar, now))
  {
    hide Whole, RollingStart, TrueCalendar, WindowGauges;
    forall w: WindowName ensures GlobalAndWhole(WindowGauges(settings, calendar, now, w)) {
      WindowGaugesWhole(settings, calendar, now, w);
    }
    RollingIsWhole(now, HOUR);
    if settings.burst.Some? {
      RollingIsWhole(now, settings.burst.value.0);
    }
    assert GlobalAndWhole(FuseGauges(settings, now));
  }

  lemma KeyAgrees(cache: Cache, bases: map<CacheKey, int>, rows: seq<Row>, key: CacheKey)
    requires Coherent(cache, bases, rows) && key in cache && Whole(key.start)
    ensures AgreesOn(key, cache[key], rows)
  {
  }

  // ----- lemmas about the cache as a whole -----

  lemma SubCacheCoherent(before: Cache, after: Cache, bases: map<CacheKey, int>, rows: seq<Row>)
    requires Coherent(before, bases, rows)
    requires forall k :: k in after ==> k in before && after[k] == before[k]
    ensures Coherent(after, bases, rows)
  {
    hide Fits;
  }

  lemma LoadedCoherent(before: Cache, bases: map<CacheKey, int>, rows: seq<Row>, loaded: Cache, newBases: map<CacheKey, int>, after: Cache)
    requires Coherent(before, bases, rows)
    requires newBases == BasesOf(loaded, rows) && forall k :: k in loaded ==> loaded[k] == Load(rows, k)
    requires after == before + loaded
    ensures Coherent(after, bases + newBases, rows)
  {
    hide Fits, UsageSince, Load;
    forall key | key in after && Whole(key.start)
      ensures key in bases + newBases && Fits(rows, key, after[key], (bases + newBases)[key])
    {
      if key in loaded {
        LoadFits(rows, key);
      }
    }
  }

  lemma EmptyIsKept(bases: map<CacheKey, int>, rows: seq<Row>)
    ensures Coherent(map[], bases, rows) && Near(map[], {}, 0, 0, [])
  {
    assert AgentKeys(map[]) == {};
  }

  lemma NearCounts(cache: Cache, active: set<CacheKey>, day: int, count: int, extra: seq<CacheKey>)
    requires Near(cache, active, day, count, extra)
    ensures count == |AgentKeys(cache)| <= MAX_AGENT_ENTRIES
  {
  }

  lemma NearExtended(before: Cache, after: Cache, active: set<CacheKey>, day: int, was: int, count: int, keys: seq<CacheKey>)
    requires Near(before, active, day, was, []) && count == |AgentKeys(after)| <= MAX_AGENT_ENTRIES
    requires forall k :: k in after ==> k in before || k in keys
    ensures Near(after, active, day, count, keys)
  {
    hide AgentKeys;
  }

  ghost function BasesOf(loaded: Cache, rows: seq<Row>): (r: map<CacheKey, int>)
    ensures r.Keys == loaded.Keys
  {
    map k | k in loaded :: UsageSince(rows, k.start, k.agent).requests
  }

  /** Entries loaded at the cache's own revision join it in agreement. */
  lemma WarmExtended(cacheRevision: nat, before: Cache, loaded: Cache, after: Cache, bases: map<CacheKey, int>, revision: nat, rows: seq<Row>, orderly: bool)
    requires Warm(true, cacheRevision, before, bases, revision, rows, orderly)
    requires forall k :: k in loaded ==> loaded[k] == Load(rows, k)
    requires forall k :: k in after ==> k in before + loaded && after[k] == (before + loaded)[k]
    ensures Warm(true, cacheRevision, after, bases + BasesOf(loaded, rows), revision, rows, orderly)
  {
    hide Coherent, Load;
    if Coherent(before, bases, rows) {
      LoadedCoherent(before, bases, rows, loaded, BasesOf(loaded, rows), before + loaded);
      SubCacheCoherent(before + loaded, after, bases + BasesOf(loaded, rows), rows);
    }
  }

  lemma WarmAgrees(ready: bool, cacheRevision: nat, cache: Cache, bases: map<CacheKey, int>, revision: nat, rows: seq<Row>, orderly: bool, key: CacheKey)
    requires Warm(ready, cacheRevision, cache, bases, revision, rows, orderly)
    requires cacheRevision == revision && revision % 2 == 0 && orderly && key in cache && Whole(key.start)
    ensures AgreesOn(key, cache[key], rows)
  {
    KeyAgrees(cache, bases, rows, key);
  }

  lemma WarmShrunk(ready: bool, cacheRevision: nat, before: Cache, after: Cache, bases: map<CacheKey, int>, revision: nat, rows: seq<Row>, was: bool, now: bool)
    requires Warm(ready, cacheRevision, before, bases, revision, rows, was) && (now ==> was)
    requires forall k :: k in after ==> k in before && after[k] == before[k]
    ensures Warm(ready, cacheRevision, after, bases, revision, rows, now)
  {
    hide Coherent;
    if Coherent(before, bases, rows) {
      SubCacheCoherent(before, after, bases, rows);
    }
    assert before == map[] ==> after == map[];
  }

  /** Whether a later check may follow on a given local day. */
  predicate Follows(calendar: Calendar, lastNow: Option<int>, now: int) {
    lastNow.Some? ==> calendar.local(Daily, lastNow.value) <= calendar.local(Daily, now)
  }

  lemma DaysAdvance(calendar: Calendar, log: Log, lastNow: Option<int>, now: int)
    requires DaysInOrder(calendar, log, lastNow) && Follows(calendar, lastNow, now)
    ensures DaysInOrder(calendar, log, Some(now))
  {
  }

  lemma KeptMedian(raw: Option<Baseline>, start: int, at: nat, median: real, revision: nat, rows: seq<Row>)
    requires MedianKept(raw, start, at, median, revision, rows) && raw.Some? && at == revision && revision % 2 == 0
    ensures median == BaselineMedian(rows, raw.value, start)
  {
  }

  lemma ClearedIsKept(start: int, median: real, revision: nat, rows: seq<Row>)
    ensures MedianKept(None, start, 0, median, revision, rows)
  {
  }

  lemma FreshMedian(b: Baseline, start: int, revision: nat, rows: seq<Row>)
    requires 0 < b.window <= DAY
    ensures MedianKept(Some(b), start, revision, BaselineMedian(rows, b, start), revision, rows)
  {
  }

  // ----- readings through the cache are readings of the ledger -----

  function Seen(gauges: seq<Gauge>, usages: seq<Usage>, held: Held): (r: seq<Reading>)
    requires |usages| == |gauges|
    ensures |r| == |gauges|
    ensures forall i :: 0 <= i < |gauges| ==> r[i] == ReadUsage(gauges[i], usages[i], held)
  {
    seq(|gauges|, i requires 0 <= i < |gauges| => ReadUsage(gauges[i], usages[i], held))
  }

  ghost predicate AllAgree(gauges: seq<Gauge>, usages: seq<Usage>, rows: seq<Row>) {
    |usages| == |gauges| && forall i :: 0 <= i < |gauges| ==> AgreesOn(KeyOf(gauges[i]), usages[i], rows)
  }

  lemma SeenIsRead(gauges: seq<Gauge>, usages: seq<Usage>, rows: seq<Row>, held: Held)
    requires AllAgree(gauges, usages, rows)
    ensures Seen(gauges, usages, held) == Readings(gauges, rows, held)
  {
    hide UsageSince;
  }

  lemma ObjectionInPrefix(readings: seq<Reading>, n: nat, now: int, cooldown: int)
    requires n <= |readings| && FirstObjection(readings[..n], now, cooldown).Some?
    ensures FirstObjection(readings, now, cooldown) == FirstObjection(readings[..n], now, cooldown)
  {
    FirstObjectionConcat(readings[..n], readings[n..], now, cooldown);
    assert readings[..n] + readings[n..] == readings;
  }

  /** Objections of the shared windows, found in two parts. */
  lemma SharedInParts(settings: Settings, calendar: Calendar, now: int, rows: seq<Row>, held: Held)
    requires ValidSettings(settings)
    ensures var fixed, base := FixedGauges(settings, calendar, now), BaselineGauges(settings, now, rows);
            Readings(SharedGauges(settings, calendar, now, rows), rows, held) == Readings(fixed, rows, held) + Readings(base, rows, held)
            && FirstObjection(Readings(SharedGauges(settings, calendar, now, rows), rows, held), now, settings.cooldown)
               == if FirstObjection(Readings(fixed, rows, held), now, settings.cooldown).Some?
                  then FirstObjection(Readings(fixed, rows, held), now, settings.cooldown)
                  else FirstObjection(Readings(base, rows, held), now, settings.cooldown)
  {
    hide Readings, FirstObjection, BaselineGauges, CalendarGauges, FuseGauges;
    var fixed, base := FixedGauges(settings, calendar, now), BaselineGauges(settings, now, rows);
    ReadingsConcat(fixed, base, rows, held);
    FirstObjectionConcat(Readings(fixed, rows, held), Readings(base, rows, held), now, settings.cooldown);
  }

  // ----- the books as a whole -----

  /** Counters, the order of days and, when nobody else writes, the ledger all match the log. */
  ghost predicate BooksAgree(calendar: Calendar, held: Held, log: Log, orderly: bool, lastNow: Option<int>, sole: bool, rows: seq<Row>) {
    TrueCalendar(calendar) && Accounts(held, log)
    && (orderly ==> DaysInOrder(calendar, log, lastNow))
    && (orderly && sole ==> Mirrors(rows, log))
  }

  lemma BooksAfterDrift(calendar: Calendar, held: Held, log: Log, orderly: bool, lastNow: Option<int>,
                        sole: bool, rows: seq<Row>, nowSole: bool, nowRows: seq<Row>)
    requires BooksAgree(calendar, held, log, orderly, lastNow, sole, rows)
    requires nowSole ==> sole && nowRows == rows
    ensures BooksAgree(calendar, held, log, orderly, lastNow, nowSole, nowRows) && TrueCalendar(calendar)
  {
    hide TrueCalendar, Accounts, DaysInOrder, Mirrors;
  }

  lemma BooksAfterCheck(calendar: Calendar, held: Held, log: Log, orderly: bool, lastNow: Option<int>, sole: bool, rows: seq<Row>, now: int)
    requires BooksAgree(calendar, held, log, orderly, lastNow, sole, rows)
    ensures BooksAgree(calendar, held, log, orderly && Follows(calendar, lastNow, now), Some(now), sole, rows)
  {
    hide TrueCalendar, Accounts, DaysInOrder, Mirrors, Follows;
    if orderly && Follows(calendar, lastNow, now) {
      DaysAdvance(calendar, log, lastNow, now);
    }
  }

  lemma DaysAfterClose(calendar: Calendar, log: Log, i: nat, status: Safety.Status, lastNow: Option<int>)
    requires DaysInOrder(calendar, log, lastNow) && i < |log| && status != Safety.Open
    ensures DaysInOrder(calendar, log[i := log[i].(status := status)], lastNow)
  {
  }

  lemma BooksAfterFree(calendar: Calendar, held: Held, log: Log, i: nat, orderly: bool, lastNow: Option<int>, sole: bool, rows: seq<Row>)
    requires BooksAgree(calendar, held, log, orderly, lastNow, sole, rows) && i < |log| && log[i].status == Safety.Open
    ensures BooksAgree(calendar, Returned(held, log[i].agent, log[i].amount), log[i := log[i].(status := Safety.Freed)],
                       orderly, lastNow, sole, rows)
  {
    hide TrueCalendar, Accounts, DaysInOrder, Mirrors, Returned;
    AccountsAfterReturn(held, log, i, Safety.Freed);
    if orderly {
      DaysAfterClose(calendar, log, i, Safety.Freed, lastNow);
      if sole {
        MirrorsAfterFree(rows, log, i);
      }
    }
  }

  lemma BooksAfterSettle(calendar: Calendar, held: Held, log: Log, i: nat, row: Row, orderly: bool, lastNow: Option<int>, sole: bool, rows: seq<Row>,
                         nowOrderly: bool, nowSole: bool, nowRows: seq<Row>)
    requires BooksAgree(calendar, held, log, orderly, lastNow, sole, rows) && i < |log| && log[i].status == Safety.Open
    requires row.agent == log[i].agent && row.cost >= 0.0
    requires nowOrderly ==> orderly && row.ts == log[i].ts
    requires nowSole ==> sole && nowRows == rows + [row]
    ensures BooksAgree(calendar, Returned(held, log[i].agent, log[i].amount),
                       log[i := log[i].(status := Safety.Settled(row.cost, row.unsafe))], nowOrderly, lastNow, nowSole, nowRows)
  {
    hide TrueCalendar, Accounts, DaysInOrder, Mirrors, Returned;
    AccountsAfterReturn(held, log, i, Safety.Settled(row.cost, row.unsafe));
    if nowOrderly {
      DaysAfterClose(calendar, log, i, Safety.Settled(row.cost, row.unsafe), lastNow);
      if nowSole {
        MirrorsAfterSettle(rows, log, i, row.cost, row.unsafe);
      }
    }
  }

  lemma BooksAfterAdmit(calendar: Calendar, held: Held, log: Log, e: Safety.Entry, orderly: bool, sole: bool, rows: seq<Row>)
    requires BooksAgree(calendar, held, log, orderly, Some(e.ts), sole, rows)
    requires e.status == Safety.Open && e.amount >= 0.0 && e.ts >= 0
    ensures BooksAgree(calendar, Taken(held, e.agent, e.amount), log + [e], orderly, Some(e.ts), sole, rows)
  {
    hide TrueCalendar, Accounts, Mirrors, Taken;
    AccountsAfterTake(held, log, e);
    if orderly && sole {
      MirrorsAfterAppend(rows, log, e);
    }
  }

  // ----- the caches after a settlement -----

  /** Where the admission day's key stands relative to the cached day: the same day, or an earlier
      one whose rows the cached day does not cover. */
  ghost predicate AgentDayFits(agentDay: CacheKey, row: Row, day: int) {
    agentDay.agent == row.agent && (day == 0 || agentDay.start == day || (row.ts < day && Whole(day)))
  }

  ghost predicate AllBumped(before: Cache, after: Cache, active: set<CacheKey>, agentDay: CacheKey, row: Row) {
    after.Keys == before.Keys
    && forall k :: k in before ==>
         after[k] == if k in active || (row.agent != "" && k == agentDay) then Bumped(k, before[k], row) else before[k]
  }

  lemma WarmAfterSettle(ready: bool, cacheRevision: nat, before: Cache, after: Cache, bases: map<CacheKey, int>, revision: nat, rows: seq<Row>,
                        orderly: bool, nowOrderly: bool, active: set<CacheKey>, day: int, count: int, agentDay: CacheKey, row: Row)
    requires Warm(ready, cacheRevision, before, bases, revision, rows, orderly) && cacheRevision == revision && revision % 2 == 0
    requires Near(before, active, day, count, []) && AllBumped(before, after, active, agentDay, row)
    requires nowOrderly ==> orderly && AgentDayFits(agentDay, row, day)
    ensures Warm(ready, revision + 2, after, bases, revision + 2, rows + [row], nowOrderly)
    ensures Near(after, active, day, count, [])
  {
    hide Coherent;
    assert AgentKeys(after) == AgentKeys(before);
    if nowOrderly {
      var last := if day == 0 then agentDay.start else day;
      SettledCoherent(before, after, bases, rows, row, active, agentDay, last);
    }
  }

  lemma MedianAfterSettle(raw: Option<Baseline>, start: int, median: real, revision: nat, rows: seq<Row>, row: Row)
    requires MedianKept(raw, start, revision, median, revision, rows) && revision % 2 == 0 && start <= row.ts
    ensures MedianKept(raw, start, revision + 2, median, revision + 2, rows + [row])
  {
    hide BaselineMedian;
    if raw.Some? {
      MedianUnmoved(rows, row, raw.value, start);
    }
  }

  lemma StaleIsKept(raw: Option<Baseline>, start: int, at: nat, median: real, revision: nat, rows: seq<Row>, now: nat, nowRows: seq<Row>)
    requires MedianKept(raw, start, at, median, revision, rows) && now > revision
    ensures MedianKept(raw, start, at, median, now, nowRows)
  {
  }

  // ----- the guard's verdict and the log's -----

  lemma SameReadings(gauges: seq<Gauge>, rows: seq<Row>, log: Log, held: Held, agent: string)
    requires Mirrors(rows, log) && Safety.Holds(held, log)
    requires forall i :: 0 <= i < |gauges| && gauges[i].AgentGauge? ==> gauges[i].agent == agent && agent != ""
    ensures Readings(gauges, rows, held) == Readings(gauges, Safety.RowsOf(log), Safety.HeldOf(log, agent))
  {
    hide UsageSince, Safety.OpenUSD, Safety.OpenCount, Safety.RowsOf;
    var other := Safety.HeldOf(log, agent);
    forall i | 0 <= i < |gauges| ensures ReadGauge(gauges[i], rows, held) == ReadGauge(gauges[i], Safety.RowsOf(log), other) {
      assert gauges[i].AgentGauge? ==> HeldFor(held, agent) == HeldFor(other, agent);
    }
  }

  lemma SameBaseline(settings: Settings, now: int, rows: seq<Row>, log: Log)
    requires ValidSettings(settings) && Mirrors(rows, log)
    ensures BaselineGauges(settings, now, rows) == BaselineGauges(settings, now, Safety.RowsOf(log))
  {
    hide SpentBetween, UsageSince, Median;
    if settings.baseline.Some? {
      var b := settings.baseline.value;
      var start := BaselineStart(now, b.window);
      assert HistorySpends(rows, start, b.days, b.window) == HistorySpends(Safety.RowsOf(log), start, b.days, b.window);
    }
  }

  lemma NoAgentGauges(settings: Settings, calendar: Calendar, now: int, rows: seq<Row>)
    requires ValidSettings(settings)
    ensures forall g :: g in SharedGauges(settings, calendar, now, rows) ==> !g.AgentGauge?
  {
    hide RollingStart, BaselineStart, BaselineMedian;
    assert forall w :: forall g :: g in WindowGauges(settings, calendar, now, w) ==> !g.AgentGauge?;
  }

  /** Judged from the store and the guard's counters, an admission gets the verdict the log gives. */
  lemma SameVerdict(settings: Settings, calendar: Calendar, trip: Option<int>, now: int, agent: string, rows: seq<Row>, log: Log, held: Held, estimate: Estimate)
    requires ValidSettings(settings) && Mirrors(rows, log) && Safety.Holds(held, log)
    ensures Admission(settings, calendar, trip, now, agent, rows, held, estimate)
            == Admission(settings, calendar, trip, now, agent, Safety.RowsOf(log), Safety.HeldOf(log, agent), estimate)
  {
    hide Mirrors, Safety.Holds, Readings, FirstObjection, Grant, BaselineGauges, CalendarGauges, FuseGauges, Safety.RowsOf;
    SameBaseline(settings, now, rows, log);
    var shared, own := SharedGauges(settings, calendar, now, rows), AgentGauges(settings, calendar, now, agent);
    NoAgentGauges(settings, calendar, now, rows);
    SameReadings(shared, rows, log, held, agent);
    SameReadings(own, rows, log, held, agent);
    SameReadings(shared + own, rows, log, held, agent);
    SameFanout(settings, rows, log, held, now, agent);
  }

  lemma SameFanout(settings: Settings, rows: seq<Row>, log: Log, held: Held, now: int, agent: string)
    requires Mirrors(rows, log) && Safety.Holds(held, log)
    ensures FanoutObjection(settings, rows, held, now) == FanoutObjection(settings, Safety.RowsOf(log), Safety.HeldOf(log, agent), now)
  {
    hide UsageSince, Safety.OpenUSD, Safety.OpenCount, Safety.RowsOf;
  }

  /** A reservation's day is the cached day or an earlier one, which ended before the cached one began. */
  lemma AgentDayHolds(calendar: Calendar, held: Held, log: Log, i: nat, orderly: bool, lastNow: Option<int>, sole: bool, rows: seq<Row>, day: int, row: Row)
    requires BooksAgree(calendar, held, log, orderly, lastNow, sole, rows) && i < |log| && log[i].status == Safety.Open
    requires day != 0 ==> lastNow.Some? && day == calendar.local(Daily, lastNow.value)
    requires row.ts == log[i].ts
    ensures orderly ==> AgentDayFits(CacheKey(calendar.local(Daily, log[i].ts), row.agent), row, day)
  {
    hide Accounts, Mirrors, Whole;
    if orderly && day != 0 {
      var admitted, now := log[i].ts, lastNow.value;
      assert calendar.local(Daily, admitted) <= calendar.local(Daily, now);
      if calendar.local(Daily, admitted) != day {
        assert calendar.local(Daily, admitted) < calendar.local(Daily, now);
        assert admitted < calendar.local(Daily, now);
      }
      assert Whole(calendar.local(Daily, now));
    }
  }

  lemma WarmStale(ready: bool, cacheRevision: nat, cache: Cache, bases: map<CacheKey, int>, revision: nat, rows: seq<Row>, orderly: bool, now: nat, nowRows: seq<Row>)
    requires Warm(ready, cacheRevision, cache, bases, revision, rows, orderly) && now > revision
    ensures Warm(ready, cacheRevision, cache, bases, now, nowRows, orderly)
  {
  }

  // ----- one call of the guard is one step of module BudgetSafety -----

  lemma AdmitIsStep(settings: Settings, calendar: Calendar, held: Held, log: Log, trip: Option<int>, lastNow: Option<int>, rows: seq<Row>,
                    now: int, agent: string, usd: real, verdict: Verdict, nowLog: Log, nowTrip: Option<int>)
    requires ValidSettings(settings) && BooksAgree(calendar, held, log, true, lastNow, true, rows)
    requires verdict == Admission(settings, calendar, trip, now, agent, rows, held, Estimate(usd, true, true))
    requires nowLog == if verdict.Granted? then log + [Safety.Entry(now, agent, verdict.amount, Safety.Open)] else log
    requires nowTrip == if verdict.Refused? then TripAfter(trip, verdict.denial) else trip
    ensures Safety.State(nowLog, nowTrip) == Safety.Next(settings, calendar, Safety.State(log, trip), Safety.Admit(now, agent, usd))
  {
    hide Mirrors, Admission, Safety.Holds, TrueCalendar;
    SameVerdict(settings, calendar, trip, now, agent, rows, log, held, Estimate(usd, true, true));
  }

  // ----- calls without a bound -----

  /** A granted call without a bound takes all headroom: until something settles, is given back or a
      window moves, the same agent gets nothing more. */
  lemma UnboundedIsExclusive(settings: Settings, calendar: Calendar, trip: Option<int>, now: int, agent: string, rows: seq<Row>, held: Held,
                             estimate: Estimate, next: Estimate)
    requires ValidSettings(settings) && !estimate.bounded && Positions(settings, calendar, now, agent, rows) != []
    requires Admission(settings, calendar, trip, now, agent, rows, held, estimate).Granted?
    ensures var amount := Admission(settings, calendar, trip, now, agent, rows, held, estimate).amount;
            Admission(settings, calendar, trip, now, agent, rows, Taken(held, agent, amount), next).Refused?
  {
    hide SharedGauges, Check, UsageSince, FirstCrossed, FirstObjection, MaxRemaining;
    var positions := Positions(settings, calendar, now, agent, rows);
    var amount := Admission(settings, calendar, trip, now, agent, rows, held, estimate).amount;
    var after := Taken(held, agent, amount);
    NoAgentGauges(settings, calendar, now, rows);
    LargestCovers(Readings(positions, rows, held), 0);
    var g := positions[0];
    assert g.AgentGauge? ==> g.agent == agent && agent != "";
    assert !Clean(ReadGauge(g, rows, after));
    assert !AllClean(positions, rows, after);
    ClearExactly(settings, calendar, trip, now, agent, rows, after);
  }
}
