/** What a budget refusal means: which windows are watched, which of them objected and why, how much
    a grant reserves, and how long a tripped fuse holds. */
module BudgetMeaning {
  import opened Common
  import opened Budget
  import Safety = BudgetSafety

  // ----- the windows -----

  /** The windows a request is read against. */
  ghost predicate Watched(settings: Settings, calendar: Calendar, now: int, agent: string, rows: seq<Row>, g: Gauge)
    requires ValidSettings(settings)
  {
    match g
    case CalendarGauge(start, cap, w, external) =>
      if external then w in settings.externalCaps && cap == settings.externalCaps[w] && start == calendar.utc(w, now)
      else w in settings.localCaps && cap == settings.localCaps[w] && start == calendar.local(w, now)
           && settings.overrideDay != Some(calendar.local(Daily, now))
    case FuseGauge(start, cap, span) =>
      start == Sec(now - span) * SECOND && (settings.burst == Some((span, cap)) || (span == HOUR && settings.hourlyUSD == Some(cap)))
    case BaselineGauge(start, cap) =>
      settings.baseline.Some? && BaselineCap(settings.baseline.value, now, rows, start, cap)
    case AgentGauge(start, cap, whose) =>
      whose == agent != "" && agent in settings.agentCaps && cap == settings.agentCaps[agent] && start == calendar.local(Daily, now)
      && settings.overrideDay != Some(start)
  }

  /** The larger of the minimum and the multiple of the median, for the slot of `now`. */
  ghost predicate BaselineCap(b: Baseline, now: int, rows: seq<Row>, start: int, cap: real)
    requires b.window > 0
  {
    start <= now < start + b.window && start % b.window == 0
    && var usual := Median(SlotSpends(rows, start, b.days, b.window)) * b.multiplier;
       cap >= b.minimumUSD && cap >= usual && (cap == b.minimumUSD || cap == usual)
  }

  /** Spend of rows that would fall in the slot if they were dated `days` days later. */
  function SpentInSlot(rows: seq<Row>, start: int, window: int, days: int): real {
    if rows == [] then 0.0
    else
      var last := rows[|rows| - 1];
      SpentInSlot(rows[..|rows| - 1], start, window, days)
      + (if Sec(start) <= Sec(last.ts + days * DAY) < Sec(start + window) then last.cost else 0.0)
  }

  function SlotSpends(rows: seq<Row>, start: int, days: nat, window: int): seq<real> {
    seq(days, i requires 0 <= i < days => SpentInSlot(rows, start, window, i + 1))
  }

  lemma SecDaysLater(ts: int, days: int)
    ensures Sec(ts + days * DAY) == Sec(ts) + days * 86400
  {
    var k := days * 86400;
    assert days * DAY == k * SECOND;
    assert ts + days * DAY == (Sec(ts) + k) * SECOND + ts % SECOND;
  }

  lemma {:induction false} SameSlot(rows: seq<Row>, start: int, window: int, days: int)
    ensures SpentBetween(rows, start - days * DAY, start - days * DAY + window) == SpentInSlot(rows, start, window, days)
  {
    hide Sec;
    if rows != [] {
      SameSlot(rows[..|rows| - 1], start, window, days);
      SecDaysLater(rows[|rows| - 1].ts, days);
      SecDaysLater(start - days * DAY, days);
      SecDaysLater(start - days * DAY + window, days);
    }
  }

  lemma SlotOf(now: int, window: int, start: int)
    requires window > 0
    ensures start == BaselineStart(now, window) <==> start <= now < start + window && start % window == 0
  {
    var q := now / window;
    assert now == q * window + now % window;
    if start <= now < start + window && start % window == 0 {
      var p := start / window;
      assert start == p * window && (p + 1) * window == p * window + window && (q + 1) * window == q * window + window;
      if p < q { ProductMonotone(p + 1, q, window); }
      if p > q { ProductMonotone(q + 1, p, window); }
    }
    assert BaselineStart(now, window) == q * window;
    MultipleOf(q, window);
  }

  lemma MultipleOf(q: int, window: int)
    requires window > 0
    ensures (q * window) % window == 0
  {
    var m := q * window;
    var d := q - m / window;
    assert m == (m / window) * window + m % window;
    assert d * window == q * window - (m / window) * window;
    if d >= 1 { ProductMonotone(1, d, window); }
    if d <= -1 { ProductMonotone(d, -1, window); }
  }

  /** The windows are exactly the configured ones that are not lifted for the day. */
  lemma PositionsExactly(settings: Settings, calendar: Calendar, now: int, agent: string, rows: seq<Row>, g: Gauge)
    requires ValidSettings(settings)
    ensures g in Positions(settings, calendar, now, agent, rows) <==> Watched(settings, calendar, now, agent, rows, g)
  {
    hide BaselineCap, BaselineMedian, BaselineStart;
    match g
    case CalendarGauge(start, cap, w, external) =>
      CalendarExactly(settings, calendar, now, g);
    case FuseGauge(start, cap, span) =>
      CalendarExactly(settings, calendar, now, g);
      FusesExactly(settings, now, g);
    case BaselineGauge(start, cap) =>
      CalendarExactly(settings, calendar, now, g);
      FusesExactly(settings, now, g);
      if settings.baseline.Some? {
        BaselineExactly(settings, now, rows, start, cap);
      }
    case AgentGauge(start, cap, whose) =>
      CalendarExactly(settings, calendar, now, g);
      FusesExactly(settings, now, g);
      OneAgent(settings, calendar, now, agent, g);
  }

  lemma CalendarExactly(settings: Settings, calendar: Calendar, now: int, g: Gauge)
    ensures g in CalendarGauges(settings, calendar, now)
            <==> g.CalendarGauge?
                 && if g.external then g.window in settings.externalCaps && g.cap == settings.externalCaps[g.window] && g.start == calendar.utc(g.window, now)
                    else g.window in settings.localCaps && g.cap == settings.localCaps[g.window] && g.start == calendar.local(g.window, now)
                         && settings.overrideDay != Some(calendar.local(Daily, now))
  {
    hide WindowGauges;
    WindowExactly(settings, calendar, now, Daily, g);
    WindowExactly(settings, calendar, now, Weekly, g);
    WindowExactly(settings, calendar, now, Monthly, g);
  }

  lemma WindowExactly(settings: Settings, calendar: Calendar, now: int, w: WindowName, g: Gauge)
    ensures g in WindowGauges(settings, calendar, now, w)
            <==> g.CalendarGauge? && g.window == w
                 && if g.external then w in settings.externalCaps && g.cap == settings.externalCaps[w] && g.start == calendar.utc(w, now)
                    else w in settings.localCaps && g.cap == settings.localCaps[w] && g.start == calendar.local(w, now)
                         && settings.overrideDay != Some(calendar.local(Daily, now))
  {
    One(CalendarGauge(calendar.local(w, now), if w in settings.localCaps then settings.localCaps[w] else 0.0, w, false), g);
    One(CalendarGauge(calendar.utc(w, now), if w in settings.externalCaps then settings.externalCaps[w] else 0.0, w, true), g);
  }

  lemma One(a: Gauge, g: Gauge)
    ensures g in [a] <==> g == a
  {
  }

  lemma FusesExactly(settings: Settings, now: int, g: Gauge)
    ensures g in FuseGauges(settings, now)
            <==> g.FuseGauge? && g.start == Sec(now - g.span) * SECOND
                 && (settings.burst == Some((g.span, g.cap)) || (g.span == HOUR && settings.hourlyUSD == Some(g.cap)))
  {
    hide Sec;
    if settings.burst.Some? { One(FuseGauge(RollingStart(now, settings.burst.value.0), settings.burst.value.1, settings.burst.value.0), g); }
    if settings.hourlyUSD.Some? { One(FuseGauge(RollingStart(now, HOUR), settings.hourlyUSD.value, HOUR), g); }
  }

  lemma BaselineExactly(settings: Settings, now: int, rows: seq<Row>, start: int, cap: real)
    requires ValidSettings(settings) && settings.baseline.Some?
    ensures BaselineGauge(start, cap) in BaselineGauges(settings, now, rows) <==> BaselineCap(settings.baseline.value, now, rows, start, cap)
  {
    hide Median, SpentBetween, SpentInSlot, BaselineStart, SlotSpends, HistorySpends;
    var b := settings.baseline.value;
    var first := BaselineStart(now, b.window);
    SlotOf(now, b.window, start);
    SlotOf(now, b.window, first);
    SpendsAreSlots(rows, first, b.days, b.window);
    One(BaselineGauge(first, MaxReal(b.minimumUSD, BaselineMedian(rows, b, first) * b.multiplier)), BaselineGauge(start, cap));
  }

  lemma SpendsAreSlots(rows: seq<Row>, start: int, days: nat, window: int)
    ensures HistorySpends(rows, start, days, window) == SlotSpends(rows, start, days, window)
  {
    hide SpentBetween, SpentInSlot;
    forall i | 0 <= i < days
      ensures HistorySpends(rows, start, days, window)[i] == SpentInSlot(rows, start, window, i + 1)
    {
      SameSlot(rows, start, window, i + 1);
    }
  }

  lemma OneAgent(settings: Settings, calendar: Calendar, now: int, agent: string, g: Gauge)
    ensures g in AgentGauges(settings, calendar, now, agent)
            <==> g.AgentGauge? && g.agent == agent != "" && agent in settings.agentCaps && g.cap == settings.agentCaps[agent]
                 && g.start == calendar.local(Daily, now) && settings.overrideDay != Some(g.start)
  {
    One(AgentGauge(calendar.local(Daily, now), if agent in settings.agentCaps then settings.agentCaps[agent] else 0.0, agent), g);
  }

  /** A rolling window counts every row no older than its span, and none older by a second or more. */
  lemma RollingExactly(row: Row, now: int, span: int, agent: string)
    ensures agent == "" || row.agent == agent ==>
              (row.ts >= now - span ==> Counted(row, RollingStart(now, span), agent))
              && (row.ts <= now - span - SECOND ==> !Counted(row, RollingStart(now, span), agent))
    ensures agent != "" && row.agent != agent ==> !Counted(row, RollingStart(now, span), agent)
  {
    assert Sec(RollingStart(now, span)) == Sec(now - span);
  }

  /** A window has a metering gap exactly when one of the rows it counts was recorded unsafely. */
  lemma {:induction false} GapsExactly(rows: seq<Row>, start: int, agent: string)
    ensures UsageSince(rows, start, agent).gaps >= 0
    ensures UsageSince(rows, start, agent).gaps > 0
            <==> exists i :: 0 <= i < |rows| && rows[i].unsafe && Sec(start) <= Sec(rows[i].ts) && (agent == "" || rows[i].agent == agent)
  {
    hide Sec;
    if rows != [] {
      var n := |rows| - 1;
      GapsExactly(rows[..n], start, agent);
      assert forall i :: 0 <= i < n ==> rows[..n][i] == rows[i];
    }
  }

  // ----- the objections -----

  /** What is wrong with a window that is not clean. */
  ghost predicate Faults(r: Reading, denial: Denial, until: int) {
    if r.gaps > 0 then denial == MeteringGap(r.gauge)
    else if IsFuse(r.gauge) then r.spent + r.reserved >= r.gauge.cap && denial == FuseTripped(until)
    else (r.spent >= r.gauge.cap && denial == CapReached(r.gauge))
         || (r.spent < r.gauge.cap <= r.spent + r.reserved && denial == NoHeadroom(r.gauge))
  }

  /** Window `k` is the first that is not clean. */
  ghost predicate FirstFault(readings: seq<Reading>, k: nat, denial: Denial, now: int, cooldown: int) {
    k < |readings| && (forall j :: 0 <= j < k ==> Clean(readings[j])) && Faults(readings[k], denial, now + cooldown)
  }

  lemma {:induction false} FirstObjectionExactly(readings: seq<Reading>, now: int, cooldown: int, denial: Denial)
    ensures FirstObjection(readings, now, cooldown) == Some(denial) <==> exists k: nat :: FirstFault(readings, k, denial, now, cooldown)
  {
    hide FirstFault, Clean, Objection;
    if readings == [] {
      NoFault(now, cooldown, denial);
    } else {
      var n := |readings| - 1;
      var front := readings[..n];
      FirstObjectionExactly(front, now, cooldown, denial);
      NoObjectionExactly(front, now, cooldown);
      assert forall i :: 0 <= i < n ==> front[i] == readings[i];
      forall k: nat
        ensures FirstFault(readings, k, denial, now, cooldown)
                <==> FirstFault(front, k, denial, now, cooldown)
                     || (k == n && (forall i :: 0 <= i < n ==> Clean(front[i])) && Objection(readings[n], now, cooldown) == Some(denial))
      {
        FaultStep(readings, k, denial, now, cooldown);
      }
      if k: nat :| FirstFault(front, k, denial, now, cooldown) {
        assert FirstFault(readings, k, denial, now, cooldown);
      }
      FaultStep(readings, n, denial, now, cooldown);
    }
  }

  lemma NoFault(now: int, cooldown: int, denial: Denial)
    ensures forall k: nat :: !FirstFault([], k, denial, now, cooldown)
  {
  }

  lemma FaultStep(readings: seq<Reading>, k: nat, denial: Denial, now: int, cooldown: int)
    requires readings != []
    ensures var n := |readings| - 1;
            FirstFault(readings, k, denial, now, cooldown)
            <==> FirstFault(readings[..n], k, denial, now, cooldown)
                 || (k == n && (forall i :: 0 <= i < n ==> Clean(readings[..n][i])) && Objection(readings[n], now, cooldown) == Some(denial))
  {
    var front := readings[..|readings| - 1];
    assert forall j :: 0 <= j < |front| ==> front[j] == readings[j];
  }

  /** Window `k` is the first the amount does not fit. */
  ghost predicate FirstMisfit(readings: seq<Reading>, k: nat, amount: real, g: Gauge) {
    k < |readings| && (forall j :: 0 <= j < k ==> amount <= Remaining(readings[j]) + SLACK)
    && amount > Remaining(readings[k]) + SLACK && readings[k].gauge == g
  }

  lemma {:induction false} FirstCrossedExactly(readings: seq<Reading>, amount: real, g: Gauge)
    ensures FirstCrossed(readings, amount) == Some(g) <==> exists k: nat :: FirstMisfit(readings, k, amount, g)
  {
    hide FirstMisfit, Remaining;
    if readings == [] {
      NoMisfit(amount, g);
    } else {
      var n := |readings| - 1;
      var front := readings[..n];
      FirstCrossedExactly(front, amount, g);
      NoneCrossedExactly(front, amount);
      forall k: nat
        ensures FirstMisfit(readings, k, amount, g)
                <==> FirstMisfit(front, k, amount, g)
                     || (k == n && FirstCrossed(front, amount).None? && amount > Remaining(readings[n]) + SLACK && readings[n].gauge == g)
      {
        MisfitStep(readings, k, amount, g);
      }
      if k: nat :| FirstMisfit(front, k, amount, g) {
        assert FirstMisfit(readings, k, amount, g);
      }
      MisfitStep(readings, n, amount, g);
    }
  }

  lemma NoMisfit(amount: real, g: Gauge)
    ensures forall k: nat :: !FirstMisfit([], k, amount, g)
  {
  }

  lemma MisfitStep(readings: seq<Reading>, k: nat, amount: real, g: Gauge)
    requires readings != []
    ensures var n := |readings| - 1;
            FirstMisfit(readings, k, amount, g)
            <==> FirstMisfit(readings[..n], k, amount, g)
                 || (k == n && FirstCrossed(readings[..n], amount).None? && amount > Remaining(readings[n]) + SLACK && readings[n].gauge == g)
  {
    hide Remaining, FirstCrossed;
    var front := readings[..|readings| - 1];
    NoneCrossedExactly(front, amount);
    assert forall j :: 0 <= j < |front| ==> front[j] == readings[j];
  }

  /** Why the standing check objects: a ban, a running cooldown, or else the first unclean window,
      the breaker coming after the shared windows and before the agent's own. */
  ghost predicate Standing(settings: Settings, calendar: Calendar, trip: Option<int>, now: int, agent: string, rows: seq<Row>, held: Held, denial: Denial)
    requires ValidSettings(settings)
  {
    if settings.banned then denial == Banned
    else if settings.externalBan then denial == ExternallyBanned
    else if trip.Some? && now < trip.value then denial == CoolingDown(trip.value)
    else
      var shared := Readings(SharedGauges(settings, calendar, now, rows), rows, held);
      var own := Readings(AgentGauges(settings, calendar, now, agent), rows, held);
      (exists k: nat :: FirstFault(shared, k, denial, now, settings.cooldown))
      || ((forall i :: 0 <= i < |shared| ==> Clean(shared[i]))
          && if BreakerHasRoom(settings, rows, held, now) then exists k: nat :: FirstFault(own, k, denial, now, settings.cooldown)
             else denial == FanoutTripped(now + settings.cooldown))
  }

  lemma StandingExactly(settings: Settings, calendar: Calendar, trip: Option<int>, now: int, agent: string, rows: seq<Row>, held: Held, denial: Denial)
    requires ValidSettings(settings)
    ensures Check(settings, calendar, trip, now, agent, rows, held) == Some(denial) <==> Standing(settings, calendar, trip, now, agent, rows, held, denial)
  {
    hide FirstObjection, FirstFault, SharedGauges, AgentGauges, Readings, Clean, BreakerHasRoom, FanoutObjection, ValidSettings;
    var shared := Readings(SharedGauges(settings, calendar, now, rows), rows, held);
    var own := Readings(AgentGauges(settings, calendar, now, agent), rows, held);
    FirstObjectionExactly(shared, now, settings.cooldown, denial);
    NoObjectionExactly(shared, now, settings.cooldown);
    FirstObjectionExactly(own, now, settings.cooldown, denial);
    BreakerTrips(settings, rows, held, now);
    if k: nat :| FirstFault(shared, k, denial, now, settings.cooldown) {
      NotClean(shared, k, denial, now, settings.cooldown);
    }
  }

  lemma NotClean(readings: seq<Reading>, k: nat, denial: Denial, now: int, cooldown: int)
    requires FirstFault(readings, k, denial, now, cooldown)
    ensures k < |readings| && !Clean(readings[k])
  {
  }

  lemma BreakerTrips(settings: Settings, rows: seq<Row>, held: Held, now: int)
    ensures FanoutObjection(settings, rows, held, now)
            == if BreakerHasRoom(settings, rows, held, now) then None else Some(FanoutTripped(now + settings.cooldown))
  {
    hide UsageSince, RollingStart;
  }

  /** A request is refused for a reason exactly when that reason stands, or else it has no price
      under a dollar limit, or it is bounded and this is the first window it does not fit. */
  lemma RefusedExactly(settings: Settings, calendar: Calendar, trip: Option<int>, now: int, agent: string, rows: seq<Row>, held: Held, estimate: Estimate, denial: Denial)
    requires ValidSettings(settings)
    ensures var readings := Readings(Positions(settings, calendar, now, agent, rows), rows, held);
            Admission(settings, calendar, trip, now, agent, rows, held, estimate) == Refused(denial)
            <==> Standing(settings, calendar, trip, now, agent, rows, held, denial)
                 || (Check(settings, calendar, trip, now, agent, rows, held).None? && readings != []
                     && if !estimate.priced then denial == UnpricedRequest
                        else estimate.bounded && Misfits(readings, estimate.usd, denial, now + settings.cooldown))
  {
    hide Standing, FirstCrossed, Misfits, Positions, Readings, Check, ValidSettings;
    StandingExactly(settings, calendar, trip, now, agent, rows, held, denial);
    MisfitsExactly(Readings(Positions(settings, calendar, now, agent, rows), rows, held), estimate.usd, denial, now + settings.cooldown);
  }

  /** The denial names the first window the amount does not fit; a fuse trips instead. */
  ghost predicate Misfits(readings: seq<Reading>, amount: real, denial: Denial, until: int) {
    exists k: nat, g :: FirstMisfit(readings, k, amount, g) && denial == if IsFuse(g) then FuseTripped(until) else ExceedsRemaining(g)
  }

  lemma MisfitsExactly(readings: seq<Reading>, amount: real, denial: Denial, until: int)
    ensures Misfits(readings, amount, denial, until)
            <==> FirstCrossed(readings, amount).Some?
                 && var g := FirstCrossed(readings, amount).value; denial == if IsFuse(g) then FuseTripped(until) else ExceedsRemaining(g)
  {
    hide FirstCrossed, FirstMisfit;
    if FirstCrossed(readings, amount).Some? {
      FirstCrossedExactly(readings, amount, FirstCrossed(readings, amount).value);
    }
    if k: nat, g :| FirstMisfit(readings, k, amount, g) && denial == if IsFuse(g) then FuseTripped(until) else ExceedsRemaining(g) {
      FirstCrossedExactly(readings, amount, g);
    }
  }

  lemma {:induction false} LargestIsOne(readings: seq<Reading>)
    requires readings != [] && forall i :: 0 <= i < |readings| ==> Remaining(readings[i]) > 0.0
    ensures (forall i :: 0 <= i < |readings| ==> Remaining(readings[i]) <= MaxRemaining(readings))
            && exists i :: 0 <= i < |readings| && MaxRemaining(readings) == Remaining(readings[i])
  {
    hide Remaining;
    var n := |readings| - 1;
    if n > 0 {
      LargestIsOne(readings[..n]);
      var i :| 0 <= i < n && MaxRemaining(readings[..n]) == Remaining(readings[..n][i]);
      assert readings[..n][i] == readings[i];
    }
    assert MaxRemaining(readings) == MaxReal(MaxRemaining(readings[..n]), Remaining(readings[n]));
  }

  /** A grant reserves the estimate of a bounded request, the largest headroom of any window for an
      unbounded one, and nothing when no window is under a dollar limit. */
  lemma GrantedAmount(settings: Settings, calendar: Calendar, trip: Option<int>, now: int, agent: string, rows: seq<Row>, held: Held, estimate: Estimate)
    requires ValidSettings(settings)
    requires Admission(settings, calendar, trip, now, agent, rows, held, estimate).Granted?
    ensures var readings := Readings(Positions(settings, calendar, now, agent, rows), rows, held);
            var amount := Admission(settings, calendar, trip, now, agent, rows, held, estimate).amount;
            (readings == [] ==> amount == 0.0)
            && (readings != [] && estimate.bounded ==> amount == estimate.usd)
            && (readings != [] && !estimate.bounded ==>
                  (forall i :: 0 <= i < |readings| ==> Remaining(readings[i]) <= amount)
                  && exists i :: 0 <= i < |readings| && amount == Remaining(readings[i]))
  {
    hide FirstCrossed, Positions, Check, ValidSettings, MaxRemaining, BreakerHasRoom, ReadGauge;
    var positions := Positions(settings, calendar, now, agent, rows);
    var readings := Readings(positions, rows, held);
    ClearExactly(settings, calendar, trip, now, agent, rows, held);
    if readings != [] && !estimate.bounded {
      forall i | 0 <= i < |readings| ensures Remaining(readings[i]) > 0.0 {
        assert Clean(readings[i]);
      }
      LargestIsOne(readings);
    }
  }

  // ----- cooling down -----

  /** However it trips, a fuse holds for exactly the configured cooldown. */
  lemma TripLasts(settings: Settings, calendar: Calendar, trip: Option<int>, now: int, agent: string, rows: seq<Row>, held: Held, estimate: Estimate)
    requires ValidSettings(settings)
    requires var verdict := Admission(settings, calendar, trip, now, agent, rows, held, estimate); verdict.Refused? && Trips(verdict.denial)
    ensures Admission(settings, calendar, trip, now, agent, rows, held, estimate).denial.until == now + settings.cooldown
  {
    hide FirstMisfit, Positions, Readings, ValidSettings, Clean, BreakerHasRoom, SharedGauges, AgentGauges, Check, Admission;
    var denial := Admission(settings, calendar, trip, now, agent, rows, held, estimate).denial;
    RefusedExactly(settings, calendar, trip, now, agent, rows, held, estimate, denial);
  }

  /** From the trip until its cooldown ends, every admission of anyone is refused as cooling down,
      whatever the ledger, the work in flight and the windows have become. */
  lemma CooldownHolds(settings: Settings, calendar: Calendar, trip: Option<int>, now: int, agent: string, rows: seq<Row>, held: Held, estimate: Estimate,
                      later: Settings, t: int, other: string, ledger: seq<Row>, flying: Held, asked: Estimate)
    requires ValidSettings(settings) && ValidSettings(later) && !later.banned && !later.externalBan
    requires var verdict := Admission(settings, calendar, trip, now, agent, rows, held, estimate); verdict.Refused? && Trips(verdict.denial)
    requires now <= t < now + settings.cooldown
    ensures var verdict := Admission(settings, calendar, trip, now, agent, rows, held, estimate);
            Admission(later, calendar, TripAfter(trip, verdict.denial), t, other, ledger, flying, asked) == Refused(CoolingDown(now + settings.cooldown))
  {
    TripLasts(settings, calendar, trip, now, agent, rows, held, estimate);
    hide WindowsObjection, Grant, Positions, Readings;
  }

  /** And no longer: once its time has passed, a trip plays no part. */
  lemma CooldownEnds(settings: Settings, calendar: Calendar, trip: Option<int>, now: int, agent: string, rows: seq<Row>, held: Held, estimate: Estimate)
    requires ValidSettings(settings) && (trip.Some? ==> trip.value <= now)
    ensures Admission(settings, calendar, trip, now, agent, rows, held, estimate) == Admission(settings, calendar, None, now, agent, rows, held, estimate)
  {
    hide WindowsObjection, Grant, Positions, Readings;
  }

  /** Over a run: while a trip holds nothing is admitted, and it outlasts whatever is settled or
      given back meanwhile. */
  lemma {:induction false} NothingDuringCooldown(settings: Settings, calendar: Calendar, s: Safety.State, steps: seq<Safety.Step>, until: int)
    requires ValidSettings(settings) && s.trip == Some(until)
    requires forall i :: 0 <= i < |steps| && steps[i].Admit? ==> steps[i].now < until
    ensures After(settings, calendar, s, steps).trip == Some(until)
    ensures |After(settings, calendar, s, steps).log| == |s.log|
  {
    hide WindowsObjection, Grant, Positions, Readings, ValidSettings;
    if steps != [] {
      var n := |steps| - 1;
      NothingDuringCooldown(settings, calendar, s, steps[..n], until);
      assert steps[n].Admit? ==> steps[n].now < until;
    }
  }

  function After(settings: Settings, calendar: Calendar, s: Safety.State, steps: seq<Safety.Step>): Safety.State
    requires ValidSettings(settings)
  {
    if steps == [] then s
    else Safety.Next(settings, calendar, After(settings, calendar, s, steps[..|steps| - 1]), steps[|steps| - 1])
  }
}
