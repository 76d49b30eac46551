/** The dollar guard's decision: which windows are watched, what each one shows of the ledger and
    of in-flight work, and whether a request may be admitted and for how much. */
module Budget {
  import opened Common

  const SECOND: int := 1_000_000_000
  const SLACK: real := 0.000000000001

  // ----- the ledger -----

  /** One settled request. Rows keep timestamps to the second only. */
  datatype Row = Row(ts: int, agent: string, cost: real, unsafe: bool)

  datatype Usage = Usage(spent: real, gaps: int, requests: int)

  function Sec(ts: int): int { ts / SECOND }

  /** The ledger compares second-precision text, so both sides are truncated. */
  predicate Counted(row: Row, start: int, agent: string) {
    Sec(start) <= Sec(row.ts) && (agent == "" || row.agent == agent)
  }

  /** Totals over every row since `start`; a non-empty `agent` restricts them to that agent. */
  function UsageSince(rows: seq<Row>, start: int, agent: string): Usage {
    if rows == [] then Usage(0.0, 0, 0)
    else
      var front := UsageSince(rows[..|rows| - 1], start, agent);
      var last := rows[|rows| - 1];
      if Counted(last, start, agent)
      then Usage(front.spent + last.cost, front.gaps + (if last.unsafe then 1 else 0), front.requests + 1)
      else front
  }

  lemma UsageAppend(rows: seq<Row>, row: Row, start: int, agent: string)
    ensures UsageSince(rows + [row], start, agent)
            == var u := UsageSince(rows, start, agent);
               if Counted(row, start, agent) then Usage(u.spent + row.cost, u.gaps + (if row.unsafe then 1 else 0), u.requests + 1) else u
  {
    assert (rows + [row])[..|rows|] == rows;
  }

  /** Spend inside [start, end), for the same slot on earlier days. */
  function SpentBetween(rows: seq<Row>, start: int, end: int): real {
    if rows == [] then 0.0
    else
      var last := rows[|rows| - 1];
      SpentBetween(rows[..|rows| - 1], start, end) + (if Sec(start) <= Sec(last.ts) < Sec(end) then last.cost else 0.0)
  }

  // ----- settings -----

  datatype WindowName = Daily | Weekly | Monthly

  /** Where calendar windows start: the machine's local calendar and UTC. */
  datatype Calendar = Calendar(local: (WindowName, int) -> int, utc: (WindowName, int) -> int)

  datatype Baseline = Baseline(window: int, multiplier: real, days: nat, minimumUSD: real)

  /** Parsed settings; caps that are not positive count as unset before they get here. */
  datatype Settings = Settings(
    banned: bool,
    externalBan: bool,
    overrideDay: Option<int>,
    localCaps: map<WindowName, real>,
    externalCaps: map<WindowName, real>,
    agentCaps: map<string, real>,
    burst: Option<(int, real)>,
    hourlyUSD: Option<real>,
    baseline: Option<Baseline>,
    fanout: Option<(int, int)>,
    cooldown: int)

  const HOUR: int := 3600 * SECOND
  const DAY: int := 24 * HOUR

  function RollingStart(now: int, window: int): int { Sec(now - window) * SECOND }

  function BaselineStart(now: int, window: int): int
    requires window > 0
  {
    now - now % window
  }

  // ----- the baseline median -----

  function HistorySpends(rows: seq<Row>, start: int, days: nat, window: int): (r: seq<real>)
    ensures |r| == days
  {
    seq(days, i requires 0 <= i < days => SpentBetween(rows, start - (i + 1) * DAY, start - (i + 1) * DAY + window))
  }

  function InsertReal(s: seq<real>, x: real): (r: seq<real>)
    ensures multiset(r) == multiset(s) + multiset{x} && |r| == |s| + 1
  {
    if s == [] then [x]
    else
      assert s == s[..|s| - 1] + [s[|s| - 1]];
      if x < s[|s| - 1] then InsertReal(s[..|s| - 1], x) + [s[|s| - 1]] else s + [x]
  }

  function SortReals(s: seq<real>): (r: seq<real>)
    ensures multiset(r) == multiset(s) && |r| == |s|
  {
    if s == [] then []
    else
      assert s == s[..|s| - 1] + [s[|s| - 1]];
      InsertReal(SortReals(s[..|s| - 1]), s[|s| - 1])
  }

  function Median(values: seq<real>): real {
    if values == [] then 0.0
    else
      var sorted := SortReals(values);
      var middle := |sorted| / 2;
      if |sorted| % 2 == 1 then sorted[middle] else sorted[middle - 1] / 2.0 + sorted[middle] / 2.0
  }

  function BaselineMedian(rows: seq<Row>, b: Baseline, start: int): real {
    Median(HistorySpends(rows, start, b.days, b.window))
  }

  // ----- gauges: every window under a dollar limit -----

  datatype Gauge =
    | CalendarGauge(start: int, cap: real, window: WindowName, external: bool)
    | FuseGauge(start: int, cap: real, span: int)
    | BaselineGauge(start: int, cap: real)
    | AgentGauge(start: int, cap: real, agent: string)

  function GaugeAgent(g: Gauge): string {
    if g.AgentGauge? then g.agent else ""
  }

  predicate LocalOverride(settings: Settings, calendar: Calendar, now: int) {
    settings.overrideDay == Some(calendar.local(Daily, now))
  }

  function WindowGauges(settings: Settings, calendar: Calendar, now: int, w: WindowName): seq<Gauge> {
    (if w in settings.localCaps && !LocalOverride(settings, calendar, now)
     then [CalendarGauge(calendar.local(w, now), settings.localCaps[w], w, false)] else [])
    + (if w in settings.externalCaps
       then [CalendarGauge(calendar.utc(w, now), settings.externalCaps[w], w, true)] else [])
  }

  function CalendarGauges(settings: Settings, calendar: Calendar, now: int): seq<Gauge> {
    WindowGauges(settings, calendar, now, Daily) + WindowGauges(settings, calendar, now, Weekly)
    + WindowGauges(settings, calendar, now, Monthly)
  }

  function FuseGauges(settings: Settings, now: int): seq<Gauge> {
    (match settings.burst
     case Some((span, cap)) => [FuseGauge(RollingStart(now, span), cap, span)]
     case None => [])
    + (match settings.hourlyUSD
       case Some(cap) => [FuseGauge(RollingStart(now, HOUR), cap, HOUR)]
       case None => [])
  }

  predicate ValidSettings(settings: Settings) {
    (settings.baseline.Some? ==> settings.baseline.value.window > 0 && settings.baseline.value.window <= DAY)
    && (settings.burst.Some? ==> settings.burst.value.0 > 0)
    && (settings.fanout.Some? ==> settings.fanout.value.0 > 0 && settings.fanout.value.1 >= 1)
    && settings.cooldown > 0
  }

  function BaselineGauges(settings: Settings, now: int, rows: seq<Row>): seq<Gauge>
    requires ValidSettings(settings)
  {
    match settings.baseline
    case Some(b) =>
      var start := BaselineStart(now, b.window);
      [BaselineGauge(start, MaxReal(b.minimumUSD, BaselineMedian(rows, b, start) * b.multiplier))]
    case None => []
  }

  function SharedGauges(settings: Settings, calendar: Calendar, now: int, rows: seq<Row>): seq<Gauge>
    requires ValidSettings(settings)
  {
    CalendarGauges(settings, calendar, now) + FuseGauges(settings, now) + BaselineGauges(settings, now, rows)
  }

  function AgentGauges(settings: Settings, calendar: Calendar, now: int, agent: string): seq<Gauge> {
    if agent != "" && agent in settings.agentCaps && !LocalOverride(settings, calendar, now)
    then [AgentGauge(calendar.local(Daily, now), settings.agentCaps[agent], agent)] else []
  }

  // ----- readings and denials -----

  datatype Reading = Reading(gauge: Gauge, spent: real, reserved: real, gaps: int)

  function Remaining(r: Reading): real { r.gauge.cap - r.spent - r.reserved }

  /** Reserved work as the guard's counters show it. */
  datatype Held = Held(usd: real, byAgent: map<string, real>, inFlight: int)

  function HeldFor(held: Held, agent: string): real {
    if agent in held.byAgent then held.byAgent[agent] else 0.0
  }

  function ReadGauge(g: Gauge, rows: seq<Row>, held: Held): Reading {
    var usage := UsageSince(rows, g.start, GaugeAgent(g));
    Reading(g, usage.spent, if g.AgentGauge? then HeldFor(held, g.agent) else held.usd, usage.gaps)
  }

  datatype Denial =
    | Banned | ExternallyBanned | CoolingDown(until: int)
    | MeteringGap(gauge: Gauge) | CapReached(gauge: Gauge) | NoHeadroom(gauge: Gauge)
    | FuseTripped(until: int) | FanoutTripped(until: int)
    | UnpricedRequest | ExceedsRemaining(gauge: Gauge)

  predicate IsFuse(g: Gauge) { g.FuseGauge? || g.BaselineGauge? }

  /** A window that cannot be trusted, is spent, or is spent once in-flight work is counted. */
  function Objection(r: Reading, now: int, cooldown: int): Option<Denial> {
    if r.gaps > 0 then Some(MeteringGap(r.gauge))
    else if IsFuse(r.gauge) then
      if r.spent + r.reserved >= r.gauge.cap then Some(FuseTripped(now + cooldown)) else None
    else if r.spent >= r.gauge.cap then Some(CapReached(r.gauge))
    else if r.spent + r.reserved >= r.gauge.cap then Some(NoHeadroom(r.gauge))
    else None
  }

  function Readings(gauges: seq<Gauge>, rows: seq<Row>, held: Held): (r: seq<Reading>)
    ensures |r| == |gauges|
    ensures forall i :: 0 <= i < |gauges| ==> r[i] == ReadGauge(gauges[i], rows, held)
  {
    seq(|gauges|, i requires 0 <= i < |gauges| => ReadGauge(gauges[i], rows, held))
  }

  function FirstObjection(readings: seq<Reading>, now: int, cooldown: int): Option<Denial> {
    if readings == [] then None
    else
      var n := |readings| - 1;
      var earlier := FirstObjection(readings[..n], now, cooldown);
      if earlier.Some? then earlier else Objection(readings[n], now, cooldown)
  }

  function FanoutObjection(settings: Settings, rows: seq<Row>, held: Held, now: int): Option<Denial> {
    match settings.fanout
    case Some((span, limit)) =>
      if UsageSince(rows, RollingStart(now, span), "").requests + held.inFlight >= limit
      then Some(FanoutTripped(now + settings.cooldown)) else None
    case None => None
  }

  /** Every shared window, then the fan-out breaker, then the calling agent's own cap. */
  function WindowsObjection(settings: Settings, calendar: Calendar, now: int, agent: string, rows: seq<Row>, held: Held)
    : Option<Denial>
    requires ValidSettings(settings)
  {
    var shared := FirstObjection(Readings(SharedGauges(settings, calendar, now, rows), rows, held), now, settings.cooldown);
    if shared.Some? then shared
    else
      var fanout := FanoutObjection(settings, rows, held, now);
      if fanout.Some? then fanout
      else FirstObjection(Readings(AgentGauges(settings, calendar, now, agent), rows, held), now, settings.cooldown)
  }

  /** The standing check: bans and cooldown come before any window. */
  function Check(settings: Settings, calendar: Calendar, trip: Option<int>, now: int, agent: string, rows: seq<Row>, held: Held)
    : Option<Denial>
    requires ValidSettings(settings)
  {
    if settings.banned then Some(Banned)
    else if settings.externalBan then Some(ExternallyBanned)
    else if trip.Some? && now < trip.value then Some(CoolingDown(trip.value))
    else WindowsObjection(settings, calendar, now, agent, rows, held)
  }

  datatype Estimate = Estimate(usd: real, priced: bool, bounded: bool)

  datatype Verdict = Refused(denial: Denial) | Granted(amount: real)

  function Positions(settings: Settings, calendar: Calendar, now: int, agent: string, rows: seq<Row>): seq<Gauge>
    requires ValidSettings(settings)
  {
    SharedGauges(settings, calendar, now, rows) + AgentGauges(settings, calendar, now, agent)
  }

  /** First window whose remainder the amount would overrun by more than the slack. */
  function FirstCrossed(readings: seq<Reading>, amount: real): Option<Gauge> {
    if readings == [] then None
    else
      var n := |readings| - 1;
      var earlier := FirstCrossed(readings[..n], amount);
      if earlier.Some? then earlier
      else if amount > Remaining(readings[n]) + SLACK then Some(readings[n].gauge) else None
  }

  function MaxRemaining(readings: seq<Reading>): real {
    if readings == [] then 0.0
    else MaxReal(MaxRemaining(readings[..|readings| - 1]), Remaining(readings[|readings| - 1]))
  }

  /** What an admission may reserve once the standing check is clear. */
  function Grant(readings: seq<Reading>, estimate: Estimate, now: int, cooldown: int): Verdict {
    if readings == [] then Granted(0.0)
    else if !estimate.priced then Refused(UnpricedRequest)
    else if !estimate.bounded then Granted(MaxRemaining(readings))
    else
      match FirstCrossed(readings, estimate.usd)
      case Some(g) => Refused(if IsFuse(g) then FuseTripped(now + cooldown) else ExceedsRemaining(g))
      case None => Granted(estimate.usd)
  }

  function Admission(settings: Settings, calendar: Calendar, trip: Option<int>, now: int, agent: string,
                     rows: seq<Row>, held: Held, estimate: Estimate): Verdict
    requires ValidSettings(settings)
  {
    var standing := Check(settings, calendar, trip, now, agent, rows, held);
    if standing.Some? then Refused(standing.value)
    else Grant(Readings(Positions(settings, calendar, now, agent, rows), rows, held), estimate, now, settings.cooldown)
  }

  /** A tripped fuse is remembered until its cooldown ends. */
  function TripAfter(trip: Option<int>, denial: Denial): Option<int> {
    if denial.FuseTripped? || denial.FanoutTripped? then Some(denial.until) else trip
  }

  predicate Trips(denial: Denial) { denial.FuseTripped? || denial.FanoutTripped? }

  /** If the denial trips a fuse, it holds until then. */
  predicate Lasts(denial: Denial, until: int) { Trips(denial) ==> denial.until == until }

  lemma {:induction false} ObjectionLasts(readings: seq<Reading>, now: int, cooldown: int)
    ensures FirstObjection(readings, now, cooldown).Some? ==> Lasts(FirstObjection(readings, now, cooldown).value, now + cooldown)
  {
    if readings != [] {
      ObjectionLasts(readings[..|readings| - 1], now, cooldown);
    }
  }

  lemma PriceLasts(readings: seq<Reading>, estimate: Estimate, now: int, cooldown: int)
    ensures var verdict := Grant(readings, estimate, now, cooldown); verdict.Refused? ==> Lasts(verdict.denial, now + cooldown)
  {
    hide FirstCrossed;
  }

  lemma {:induction false} FitsEveryReading(readings: seq<Reading>, amount: real, i: nat)
    requires FirstCrossed(readings, amount).None? && i < |readings|
    ensures amount <= Remaining(readings[i]) + SLACK
  {
    if i < |readings| - 1 {
      FitsEveryReading(readings[..|readings| - 1], amount, i);
    }
  }

  lemma {:induction false} FirstObjectionConcat(a: seq<Reading>, b: seq<Reading>, now: int, cooldown: int)
    ensures FirstObjection(a + b, now, cooldown)
            == if FirstObjection(a, now, cooldown).Some? then FirstObjection(a, now, cooldown) else FirstObjection(b, now, cooldown)
  {
    if b == [] {
      assert a + b == a;
    } else {
      FirstObjectionConcat(a, b[..|b| - 1], now, cooldown);
      assert (a + b)[..|a + b| - 1] == a + b[..|b| - 1];
    }
  }

  // ----- what a grant means -----

  /** Trusted, unspent, and with headroom left by the work in flight. */
  predicate Clean(r: Reading) {
    r.gaps <= 0 && r.spent + r.reserved < r.gauge.cap && (IsFuse(r.gauge) || r.spent < r.gauge.cap)
  }

  lemma {:induction false} NoObjectionExactly(readings: seq<Reading>, now: int, cooldown: int)
    ensures FirstObjection(readings, now, cooldown).None? <==> forall i :: 0 <= i < |readings| ==> Clean(readings[i])
  {
    if readings != [] {
      var n := |readings| - 1;
      NoObjectionExactly(readings[..n], now, cooldown);
      assert forall i :: 0 <= i < n ==> readings[..n][i] == readings[i];
    }
  }

  lemma {:induction false} NoneCrossedExactly(readings: seq<Reading>, amount: real)
    ensures FirstCrossed(readings, amount).None? <==> forall i :: 0 <= i < |readings| ==> amount <= Remaining(readings[i]) + SLACK
  {
    if readings != [] {
      var n := |readings| - 1;
      NoneCrossedExactly(readings[..n], amount);
      assert forall i :: 0 <= i < n ==> readings[..n][i] == readings[i];
    }
  }

  lemma {:induction false} LargestCovers(readings: seq<Reading>, i: nat)
    requires i < |readings|
    ensures MaxRemaining(readings) >= Remaining(readings[i])
  {
    if i < |readings| - 1 {
      LargestCovers(readings[..|readings| - 1], i);
    }
  }

  predicate AllClean(gauges: seq<Gauge>, rows: seq<Row>, held: Held) {
    forall i :: 0 <= i < |gauges| ==> Clean(ReadGauge(gauges[i], rows, held))
  }

  lemma ReadingsClean(gauges: seq<Gauge>, rows: seq<Row>, held: Held, now: int, cooldown: int)
    ensures FirstObjection(Readings(gauges, rows, held), now, cooldown).None? <==> AllClean(gauges, rows, held)
  {
    hide Clean, ReadGauge, FirstObjection;
    NoObjectionExactly(Readings(gauges, rows, held), now, cooldown);
  }

  lemma AllCleanConcat(a: seq<Gauge>, b: seq<Gauge>, rows: seq<Row>, held: Held)
    ensures AllClean(a + b, rows, held) <==> AllClean(a, rows, held) && AllClean(b, rows, held)
  {
    hide Clean, ReadGauge;
    if AllClean(a + b, rows, held) {
      forall i | 0 <= i < |a| ensures Clean(ReadGauge(a[i], rows, held)) {
        assert (a + b)[i] == a[i];
      }
      forall i | 0 <= i < |b| ensures Clean(ReadGauge(b[i], rows, held)) {
        assert (a + b)[|a| + i] == b[i];
      }
    }
  }

  predicate BreakerHasRoom(settings: Settings, rows: seq<Row>, held: Held, now: int) {
    settings.fanout.Some? ==>
      UsageSince(rows, RollingStart(now, settings.fanout.value.0), "").requests + held.inFlight < settings.fanout.value.1
  }

  lemma WindowsClear(settings: Settings, calendar: Calendar, now: int, agent: string, rows: seq<Row>, held: Held)
    requires ValidSettings(settings)
    ensures WindowsObjection(settings, calendar, now, agent, rows, held).None?
            <==> AllClean(Positions(settings, calendar, now, agent, rows), rows, held) && BreakerHasRoom(settings, rows, held, now)
  {
    hide SharedGauges, AgentGauges, AllClean, Readings, FirstObjection, ValidSettings;
    var shared, own := SharedGauges(settings, calendar, now, rows), AgentGauges(settings, calendar, now, agent);
    ReadingsClean(shared, rows, held, now, settings.cooldown);
    ReadingsClean(own, rows, held, now, settings.cooldown);
    AllCleanConcat(shared, own, rows, held);
    BreakerSays(settings, rows, held, now);
  }

  lemma BreakerSays(settings: Settings, rows: seq<Row>, held: Held, now: int)
    ensures FanoutObjection(settings, rows, held, now).None? <==> BreakerHasRoom(settings, rows, held, now)
  {
    hide UsageSince, RollingStart;
  }

  /** The standing check is clear exactly when nothing is banned or cooling down, every window the
      request is read against is clean, and the fan-out breaker has room. */
  lemma ClearExactly(settings: Settings, calendar: Calendar, trip: Option<int>, now: int, agent: string, rows: seq<Row>, held: Held)
    requires ValidSettings(settings)
    ensures Check(settings, calendar, trip, now, agent, rows, held).None?
            <==> !settings.banned && !settings.externalBan && !(trip.Some? && now < trip.value)
                 && AllClean(Positions(settings, calendar, now, agent, rows), rows, held) && BreakerHasRoom(settings, rows, held, now)
  {
    hide Positions, WindowsObjection, AllClean, BreakerHasRoom, ValidSettings;
    WindowsClear(settings, calendar, now, agent, rows, held);
  }

  /** A request is granted exactly when the standing check is clear and, should any window be under
      a dollar limit, it has a price and, if bounded, fits every window. */
  lemma GrantedExactly(settings: Settings, calendar: Calendar, trip: Option<int>, now: int, agent: string, rows: seq<Row>, held: Held, estimate: Estimate)
    requires ValidSettings(settings)
    ensures var positions := Positions(settings, calendar, now, agent, rows);
            Admission(settings, calendar, trip, now, agent, rows, held, estimate).Granted?
            <==> Check(settings, calendar, trip, now, agent, rows, held).None?
                 && (positions == [] || (estimate.priced
                       && (estimate.bounded ==> forall i :: 0 <= i < |positions| ==>
                             estimate.usd <= Remaining(ReadGauge(positions[i], rows, held)) + SLACK)))
  {
    hide SharedGauges, AgentGauges, Check, FirstCrossed, ReadGauge, Remaining;
    var positions := Positions(settings, calendar, now, agent, rows);
    NoneCrossedExactly(Readings(positions, rows, held), estimate.usd);
  }

  // ----- sorted medians -----

  lemma {:induction false} InsertRealBounded(s: seq<real>, x: real, bound: real)
    requires x <= bound && forall i :: 0 <= i < |s| ==> s[i] <= bound
    ensures forall i :: 0 <= i < |InsertReal(s, x)| ==> InsertReal(s, x)[i] <= bound
  {
    if s != [] && x < s[|s| - 1] {
      InsertRealBounded(s[..|s| - 1], x, bound);
    }
  }

  lemma {:induction false} InsertRealSorted(s: seq<real>, x: real)
    requires forall i, j :: 0 <= i < j < |s| ==> s[i] <= s[j]
    ensures forall i, j :: 0 <= i < j < |InsertReal(s, x)| ==> InsertReal(s, x)[i] <= InsertReal(s, x)[j]
  {
    if s != [] && x < s[|s| - 1] {
      InsertRealSorted(s[..|s| - 1], x);
      InsertRealBounded(s[..|s| - 1], x, s[|s| - 1]);
    } else if s != [] {
      assert forall i :: 0 <= i < |s| ==> s[i] <= s[|s| - 1];
    }
  }

  lemma {:induction false} SortRealsSorted(s: seq<real>)
    ensures forall i, j :: 0 <= i < j < |s| ==> SortReals(s)[i] <= SortReals(s)[j]
  {
    if s != [] {
      SortRealsSorted(s[..|s| - 1]);
      InsertRealSorted(SortReals(s[..|s| - 1]), s[|s| - 1]);
    }
  }

  function AtMost(s: seq<real>, x: real): nat {
    if s == [] then 0 else AtMost(s[..|s| - 1], x) + (if s[|s| - 1] <= x then 1 else 0)
  }

  function AtLeast(s: seq<real>, x: real): nat {
    if s == [] then 0 else AtLeast(s[..|s| - 1], x) + (if s[|s| - 1] >= x then 1 else 0)
  }

  lemma {:induction false} CountsInsert(s: seq<real>, y: real, x: real)
    ensures AtMost(InsertReal(s, y), x) == AtMost(s, x) + (if y <= x then 1 else 0)
    ensures AtLeast(InsertReal(s, y), x) == AtLeast(s, x) + (if y >= x then 1 else 0)
  {
    if s != [] && y < s[|s| - 1] {
      var front, last := s[..|s| - 1], s[|s| - 1];
      CountsInsert(front, y, x);
      assert (InsertReal(front, y) + [last])[..|InsertReal(front, y)|] == InsertReal(front, y);
    } else {
      assert (s + [y])[..|s|] == s;
    }
  }

  lemma {:induction false} CountsSort(s: seq<real>, x: real)
    ensures AtMost(SortReals(s), x) == AtMost(s, x) && AtLeast(SortReals(s), x) == AtLeast(s, x)
  {
    if s != [] {
      CountsSort(s[..|s| - 1], x);
      CountsInsert(SortReals(s[..|s| - 1]), s[|s| - 1], x);
    }
  }

  lemma {:induction false} CountsFrom(s: seq<real>, x: real, k: nat)
    requires k <= |s|
    requires forall i :: k <= i < |s| ==> s[i] >= x
    ensures AtLeast(s, x) >= |s| - k
  {
    if s != [] && k < |s| { CountsFrom(s[..|s| - 1], x, k); }
  }

  lemma {:induction false} CountsTo(s: seq<real>, x: real, k: nat)
    requires k <= |s|
    requires forall i :: 0 <= i < k ==> s[i] <= x
    ensures AtMost(s, x) >= k
  {
    if s != [] {
      CountsTo(s[..|s| - 1], x, if k < |s| then k else k - 1);
    }
  }

  /** The value the baseline uses really is a median: half the days spent at most that much and
      half at least that much. */
  lemma MedianSplitsInHalf(values: seq<real>)
    requires values != []
    ensures 2 * AtMost(values, Median(values)) >= |values| && 2 * AtLeast(values, Median(values)) >= |values|
  {
    hide SortReals, AtMost, AtLeast;
    var sorted := SortReals(values);
    var m, middle := Median(values), |values| / 2;
    SortRealsSorted(values);
    CountsSort(values, m);
    if |values| % 2 == 1 {
      CountsTo(sorted, m, middle + 1);
      CountsFrom(sorted, m, middle);
    } else {
      assert sorted[middle - 1] <= sorted[middle];
      forall i | 0 <= i < middle ensures sorted[i] <= m {
        assert i == middle - 1 || sorted[i] <= sorted[middle - 1];
      }
      forall i | middle <= i < |sorted| ensures sorted[i] >= m {
        assert i == middle || sorted[middle] <= sorted[i];
      }
      CountsTo(sorted, m, middle);
      CountsFrom(sorted, m, middle);
    }
  }
}
