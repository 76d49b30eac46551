/** Caps hold over whole runs: settled spend plus live reservations never pass a cap by more than
    the fixed slack, however admissions, settlements and releases interleave. */
module BudgetSafety {
  import opened Common
  import opened Budget

  /** Open: reserved and in flight. Settled: in the ledger. Freed: given back without a row. */
  datatype Status = Open | Settled(cost: real, unsafe: bool) | Freed

  datatype Entry = Entry(ts: int, agent: string, amount: real, status: Status)

  type Log = seq<Entry>

  /** What an admission still costs its windows. */
  function Charge(e: Entry): real {
    match e.status
    case Open => e.amount
    case Settled(cost, _) => cost
    case Freed => 0.0
  }

  function RowsOf(log: Log): seq<Row> {
    if log == [] then []
    else
      var last := log[|log| - 1];
      RowsOf(log[..|log| - 1])
      + (if last.status.Settled? then [Row(last.ts, last.agent, last.status.cost, last.status.unsafe)] else [])
  }

  /** Work reserved for one agent, or for everyone. */
  function OpenUSD(log: Log, agent: string): real {
    if log == [] then 0.0
    else
      var last := log[|log| - 1];
      OpenUSD(log[..|log| - 1], agent)
      + (if last.status == Open && (agent == "" || last.agent == agent) then last.amount else 0.0)
  }

  function OpenCount(log: Log): int {
    if log == [] then 0 else OpenCount(log[..|log| - 1]) + (if log[|log| - 1].status == Open then 1 else 0)
  }

  /** The guard's counters stand for the open entries. */
  ghost predicate Holds(held: Held, log: Log) {
    held.usd == OpenUSD(log, "") && held.inFlight == OpenCount(log)
    && forall agent :: agent != "" ==> HeldFor(held, agent) == OpenUSD(log, agent)
  }

  // ----- windows of admissions -----

  /** A set of admissions that share one window: by calendar start, or by closed interval. */
  datatype Frame =
    | StartFrame(start: int, starts: int -> int, agent: string)
    | IntervalFrame(from: int, until: int)

  predicate InFrame(f: Frame, e: Entry) {
    match f
    case StartFrame(start, starts, agent) => starts(e.ts) == start && (agent == "" || e.agent == agent)
    case IntervalFrame(from, until) => from <= e.ts <= until
  }

  function Charged(log: Log, f: Frame): real {
    if log == [] then 0.0
    else
      Charged(log[..|log| - 1], f) + (if InFrame(f, log[|log| - 1]) then Charge(log[|log| - 1]) else 0.0)
  }

  function Admitted(log: Log, f: Frame): int {
    if log == [] then 0
    else
      Admitted(log[..|log| - 1], f)
      + (if InFrame(f, log[|log| - 1]) && log[|log| - 1].status != Freed then 1 else 0)
  }

  function FrameAgent(f: Frame): string {
    if f.StartFrame? then f.agent else ""
  }

  ghost predicate WellFormed(log: Log) {
    forall i :: 0 <= i < |log| ==> log[i].amount >= 0.0 && log[i].ts >= 0
                                   && (log[i].status.Settled? ==> 0.0 <= log[i].status.cost)
  }

  /** Everything a frame has charged is visible from any start that covers the frame: settled
      entries in the ledger, open ones in the reservations. */
  lemma {:induction false} ChargedIsVisible(log: Log, f: Frame, start: int, agent: string)
    requires WellFormed(log) && agent == FrameAgent(f)
    requires forall i :: 0 <= i < |log| && InFrame(f, log[i]) ==> Sec(start) <= Sec(log[i].ts)
    ensures Charged(log, f) <= UsageSince(RowsOf(log), start, agent).spent + OpenUSD(log, agent)
    ensures agent == "" ==> Admitted(log, f) <= UsageSince(RowsOf(log), start, agent).requests + OpenCount(log)
  {
    hide UsageSince, InFrame;
    if log == [] {
      NoUsage(start, agent);
    } else {
      var n := |log| - 1;
      ChargedIsVisible(log[..n], f, start, agent);
      var last := log[n];
      FrameOfAgent(f, last);
      if last.status.Settled? {
        UsageAppend(RowsOf(log[..n]), Row(last.ts, last.agent, last.status.cost, last.status.unsafe), start, agent);
      } else {
        assert RowsOf(log[..n]) + [] == RowsOf(log[..n]);
      }
    }
  }

  lemma NoUsage(start: int, agent: string)
    ensures UsageSince([], start, agent) == Usage(0.0, 0, 0)
  {
  }

  lemma FrameOfAgent(f: Frame, e: Entry)
    ensures InFrame(f, e) ==> FrameAgent(f) == "" || e.agent == FrameAgent(f)
  {
  }

  // ----- steps -----

  /** One call on the guard. `estimate` is the bounded, priced estimate of an admission; `insertOk`
      is whether the ledger accepted the row. */
  datatype Step =
    | Admit(now: int, agent: string, estimate: real)
    | Settle(index: nat, cost: real, unsafe: bool, insertOk: bool)
    | Release(index: nat)

  datatype State = State(log: Log, trip: Option<int>)

  function HeldOf(log: Log, agent: string): Held {
    Held(OpenUSD(log, ""), if agent == "" then map[] else map[agent := OpenUSD(log, agent)], OpenCount(log))
  }

  function AdmitVerdict(settings: Settings, calendar: Calendar, s: State, now: int, agent: string, estimate: real): Verdict
    requires ValidSettings(settings)
  {
    Admission(settings, calendar, s.trip, now, agent, RowsOf(s.log), HeldOf(s.log, agent), Estimate(estimate, true, true))
  }

  function Next(settings: Settings, calendar: Calendar, s: State, step: Step): State
    requires ValidSettings(settings)
  {
    match step
    case Admit(now, agent, estimate) =>
      (match AdmitVerdict(settings, calendar, s, now, agent, estimate)
       case Granted(amount) => State(s.log + [Entry(now, agent, amount, Open)], s.trip)
       case Refused(denial) => State(s.log, TripAfter(s.trip, denial)))
    case Settle(index, cost, unsafe, insertOk) =>
      if index < |s.log| && s.log[index].status == Open && insertOk
      then State(s.log[index := s.log[index].(status := Settled(cost, unsafe))], s.trip) else s
    case Release(index) =>
      if index < |s.log| && s.log[index].status == Open
      then State(s.log[index := s.log[index].(status := Freed)], s.trip) else s
  }

  /** Requests settle for no more than was reserved for them. */
  ghost predicate Honest(s: State, step: Step) {
    match step
    case Admit(now, _, estimate) => now >= 0 && estimate >= 0.0
    case Settle(index, cost, _, _) => 0.0 <= cost && (index < |s.log| ==> cost <= s.log[index].amount)
    case Release(_) => true
  }

  ghost predicate HonestRun(settings: Settings, calendar: Calendar, steps: seq<Step>)
    requires ValidSettings(settings)
  {
    forall i :: 0 <= i < |steps| ==> Honest(Run(settings, calendar, steps[..i]), steps[i])
  }

  function Run(settings: Settings, calendar: Calendar, steps: seq<Step>): State
    requires ValidSettings(settings)
  {
    if steps == [] then State([], None)
    else Next(settings, calendar, Run(settings, calendar, steps[..|steps| - 1]), steps[|steps| - 1])
  }

  // ----- caps -----

  /** A configured dollar limit and one window of admissions it must bound. */
  ghost predicate Bounds(settings: Settings, calendar: Calendar, f: Frame, cap: real) {
    LocalBounds(settings, calendar, f, cap) || ExternalBounds(settings, calendar, f, cap)
    || AgentBounds(settings, calendar, f, cap) || FuseBounds(settings, f, cap)
  }

  ghost predicate LocalBounds(settings: Settings, calendar: Calendar, f: Frame, cap: real) {
    settings.overrideDay.None? && f.StartFrame? && f.agent == ""
    && exists w :: w in settings.localCaps && settings.localCaps[w] == cap && (forall t :: f.starts(t) == calendar.local(w, t))
  }

  ghost predicate ExternalBounds(settings: Settings, calendar: Calendar, f: Frame, cap: real) {
    f.StartFrame? && f.agent == ""
    && exists w :: w in settings.externalCaps && settings.externalCaps[w] == cap && (forall t :: f.starts(t) == calendar.utc(w, t))
  }

  ghost predicate AgentBounds(settings: Settings, calendar: Calendar, f: Frame, cap: real) {
    settings.overrideDay.None? && f.StartFrame? && f.agent != "" && f.agent in settings.agentCaps
    && settings.agentCaps[f.agent] == cap && (forall t :: f.starts(t) == calendar.local(Daily, t))
  }

  ghost predicate FuseBounds(settings: Settings, f: Frame, cap: real) {
    f.IntervalFrame?
    && ((settings.burst.Some? && f.until == f.from + settings.burst.value.0 && settings.burst.value.1 == cap)
        || (settings.hourlyUSD.Some? && f.until == f.from + HOUR && settings.hourlyUSD.value == cap))
  }

  /** Windows start no later than the instants they contain. */
  ghost predicate ValidCalendar(calendar: Calendar) {
    forall w: WindowName, t: int :: calendar.local(w, t) <= t && calendar.utc(w, t) <= t
  }

  ghost predicate Positive(settings: Settings) {
    (forall w :: w in settings.localCaps ==> settings.localCaps[w] > 0.0)
    && (forall w :: w in settings.externalCaps ==> settings.externalCaps[w] > 0.0)
    && (forall a :: a in settings.agentCaps ==> settings.agentCaps[a] > 0.0)
    && (settings.burst.Some? ==> settings.burst.value.1 > 0.0)
    && (settings.hourlyUSD.Some? ==> settings.hourlyUSD.value > 0.0)
  }

  ghost predicate CapKept(log: Log, f: Frame, cap: real) {
    Charged(log, f) <= cap + SLACK
  }

  /** When an admission falls in the frame, one of the windows it is checked against covers the
      whole frame under the same cap. */
  lemma GaugeOfFrame(settings: Settings, calendar: Calendar, f: Frame, cap: real, now: int, agent: string, rows: seq<Row>) returns (g: Gauge)
    requires ValidSettings(settings) && Bounds(settings, calendar, f, cap)
    requires InFrame(f, Entry(now, agent, 0.0, Open))
    ensures g in Positions(settings, calendar, now, agent, rows) && g.cap == cap && GaugeAgent(g) == FrameAgent(f)
    ensures g.AgentGauge? <==> FrameAgent(f) != ""
    ensures f.StartFrame? ==> g.start == f.start
    ensures f.IntervalFrame? ==> Sec(g.start) <= Sec(f.from)
  {
    if LocalBounds(settings, calendar, f, cap) {
      var w :| w in settings.localCaps && settings.localCaps[w] == cap && (forall t :: f.starts(t) == calendar.local(w, t));
      g := CalendarGauge(calendar.local(w, now), cap, w, false);
      LocalGaugeListed(settings, calendar, now, w);
    } else if ExternalBounds(settings, calendar, f, cap) {
      var w :| w in settings.externalCaps && settings.externalCaps[w] == cap && (forall t :: f.starts(t) == calendar.utc(w, t));
      g := CalendarGauge(calendar.utc(w, now), cap, w, true);
      ExternalGaugeListed(settings, calendar, now, w);
    } else if AgentBounds(settings, calendar, f, cap) {
      g := AgentGauge(calendar.local(Daily, now), cap, agent);
      assert g in AgentGauges(settings, calendar, now, agent);
    } else {
      var span := if settings.burst.Some? && f.until == f.from + settings.burst.value.0 && settings.burst.value.1 == cap
                  then settings.burst.value.0 else HOUR;
      g := FuseGauge(RollingStart(now, span), cap, span);
      FuseListed(settings, now, g);
      assert Sec(g.start) == Sec(now - span);
      SecMonotone(now - span, f.from);
    }
  }

  lemma SecMonotone(a: int, b: int)
    requires a <= b
    ensures Sec(a) <= Sec(b)
  {
  }

  lemma LocalGaugeListed(settings: Settings, calendar: Calendar, now: int, w: WindowName)
    requires w in settings.localCaps && settings.overrideDay.None?
    ensures CalendarGauge(calendar.local(w, now), settings.localCaps[w], w, false) in CalendarGauges(settings, calendar, now)
  {
    var g := CalendarGauge(calendar.local(w, now), settings.localCaps[w], w, false);
    assert WindowGauges(settings, calendar, now, w)[0] == g;
    ListedIn(settings, calendar, now, w, g);
  }

  lemma ExternalGaugeListed(settings: Settings, calendar: Calendar, now: int, w: WindowName)
    requires w in settings.externalCaps
    ensures CalendarGauge(calendar.utc(w, now), settings.externalCaps[w], w, true) in CalendarGauges(settings, calendar, now)
  {
    var g := CalendarGauge(calendar.utc(w, now), settings.externalCaps[w], w, true);
    var gs := WindowGauges(settings, calendar, now, w);
    assert gs[|gs| - 1] == g;
    ListedIn(settings, calendar, now, w, g);
  }

  lemma ListedIn(settings: Settings, calendar: Calendar, now: int, w: WindowName, g: Gauge)
    requires g in WindowGauges(settings, calendar, now, w)
    ensures g in CalendarGauges(settings, calendar, now)
  {
    hide WindowGauges;
    match w
    case Daily =>
    case Weekly =>
    case Monthly =>
  }

  lemma FuseListed(settings: Settings, now: int, g: Gauge)
    requires (settings.burst.Some? && g == FuseGauge(RollingStart(now, settings.burst.value.0), settings.burst.value.1, settings.burst.value.0))
             || (settings.hourlyUSD.Some? && g == FuseGauge(RollingStart(now, HOUR), settings.hourlyUSD.value, HOUR))
    ensures g in FuseGauges(settings, now)
  {
    var gs := FuseGauges(settings, now);
    if settings.burst.Some? && g == FuseGauge(RollingStart(now, settings.burst.value.0), settings.burst.value.1, settings.burst.value.0) {
      assert gs[0] == g;
    } else {
      assert gs[|gs| - 1] == g;
    }
  }

  lemma ChargedAppend(log: Log, e: Entry, f: Frame)
    ensures Charged(log + [e], f) == Charged(log, f) + (if InFrame(f, e) then Charge(e) else 0.0)
    ensures Admitted(log + [e], f) == Admitted(log, f) + (if InFrame(f, e) && e.status != Freed then 1 else 0)
  {
    assert (log + [e])[..|log|] == log;
  }

  /** Settling for no more than was reserved, or freeing, only lowers what a frame is charged. */
  lemma {:induction false} ChargedAfterStatus(log: Log, index: nat, status: Status, f: Frame)
    requires index < |log| && log[index].status == Open
    requires Charge(log[index].(status := status)) <= log[index].amount
    ensures Charged(log[index := log[index].(status := status)], f) <= Charged(log, f)
    ensures Admitted(log[index := log[index].(status := status)], f) <= Admitted(log, f)
  {
    var n := |log| - 1;
    var changed := log[index := log[index].(status := status)];
    if index < n {
      ChargedAfterStatus(log[..n], index, status, f);
      assert changed[..n] == log[..n][index := log[..n][index].(status := status)];
    } else {
      assert changed[..n] == log[..n];
    }
  }

  lemma GrantFits(settings: Settings, calendar: Calendar, s: State, now: int, agent: string, estimate: real, f: Frame, cap: real)
    requires ValidSettings(settings) && ValidCalendar(calendar) && WellFormed(s.log) && now >= 0
    requires Bounds(settings, calendar, f, cap) && InFrame(f, Entry(now, agent, 0.0, Open))
    requires AdmitVerdict(settings, calendar, s, now, agent, estimate).Granted?
    ensures var amount := AdmitVerdict(settings, calendar, s, now, agent, estimate).amount;
            Charged(s.log, f) + amount <= cap + SLACK
  {
    hide UsageSince, SharedGauges, AgentGauges, Check, Charged, OpenUSD, OpenCount, RowsOf;
    var rows, held := RowsOf(s.log), HeldOf(s.log, agent);
    var g := GaugeOfFrame(settings, calendar, f, cap, now, agent, rows);
    assert AdmitVerdict(settings, calendar, s, now, agent, estimate).amount == estimate;
    var gauges := Positions(settings, calendar, now, agent, rows);
    var k :| 0 <= k < |gauges| && gauges[k] == g;
    FitsEveryReading(Readings(gauges, rows, held), estimate, k);
    forall i | 0 <= i < |s.log| && InFrame(f, s.log[i]) ensures Sec(g.start) <= Sec(s.log[i].ts) {
      if f.StartFrame? {
        FrameStartsEarly(settings, calendar, f, cap, s.log[i]);
        SecMonotone(f.start, s.log[i].ts);
      } else {
        SecMonotone(f.from, s.log[i].ts);
      }
    }
    ChargedIsVisible(s.log, f, g.start, FrameAgent(f));
    assert FrameAgent(f) != "" ==> g.agent == agent;
  }

  lemma FrameStartsEarly(settings: Settings, calendar: Calendar, f: Frame, cap: real, e: Entry)
    requires ValidCalendar(calendar) && Bounds(settings, calendar, f, cap) && f.StartFrame? && InFrame(f, e)
    ensures f.start <= e.ts
  {
  }

  lemma StepKeepsCap(settings: Settings, calendar: Calendar, s: State, step: Step, f: Frame, cap: real)
    requires ValidSettings(settings) && ValidCalendar(calendar) && Positive(settings)
    requires Bounds(settings, calendar, f, cap) && WellFormed(s.log) && CapKept(s.log, f, cap) && Honest(s, step)
    ensures WellFormed(Next(settings, calendar, s, step).log) && CapKept(Next(settings, calendar, s, step).log, f, cap)
  {
    hide AdmitVerdict, Bounds, ValidCalendar, Positive;
    match step
    case Admit(now, agent, estimate) =>
      if AdmitVerdict(settings, calendar, s, now, agent, estimate).Granted? {
        var amount := AdmitVerdict(settings, calendar, s, now, agent, estimate).amount;
        GrantNonNegative(settings, calendar, s, now, agent, estimate);
        var e := Entry(now, agent, amount, Open);
        ChargedAppend(s.log, e, f);
        if InFrame(f, e) {
          GrantFits(settings, calendar, s, now, agent, estimate, f, cap);
        }
      }
    case Settle(index, cost, unsafe, insertOk) =>
      if index < |s.log| && s.log[index].status == Open {
        ChargedAfterStatus(s.log, index, Settled(cost, unsafe), f);
      }
    case Release(index) =>
      if index < |s.log| && s.log[index].status == Open {
        ChargedAfterStatus(s.log, index, Freed, f);
      }
  }

  lemma GrantNonNegative(settings: Settings, calendar: Calendar, s: State, now: int, agent: string, estimate: real)
    requires ValidSettings(settings) && estimate >= 0.0
    requires AdmitVerdict(settings, calendar, s, now, agent, estimate).Granted?
    ensures AdmitVerdict(settings, calendar, s, now, agent, estimate).amount >= 0.0
  {
    hide Check, SharedGauges, AgentGauges;
  }

  /** Cap safety: in every run of honest settlements under fixed settings, what any configured cap's
      window is charged, settled and reserved together, stays within the cap and one fixed slack. */
  lemma {:induction false} CapsAreKept(settings: Settings, calendar: Calendar, steps: seq<Step>, f: Frame, cap: real)
    requires ValidSettings(settings) && ValidCalendar(calendar) && Positive(settings)
    requires Bounds(settings, calendar, f, cap) && HonestRun(settings, calendar, steps)
    ensures WellFormed(Run(settings, calendar, steps).log) && CapKept(Run(settings, calendar, steps).log, f, cap)
  {
    hide Next, Bounds, ValidCalendar, Honest, WellFormed, CapKept;
    if steps == [] {
      NothingCharged(settings, calendar, f, cap);
    } else {
      var n := |steps| - 1;
      assert forall i :: 0 <= i < n ==> steps[..n][..i] == steps[..i];
      assert HonestRun(settings, calendar, steps[..n]) by {
        forall i | 0 <= i < n ensures Honest(Run(settings, calendar, steps[..n][..i]), steps[..n][i]) {
          assert Honest(Run(settings, calendar, steps[..i]), steps[i]);
        }
      }
      CapsAreKept(settings, calendar, steps[..n], f, cap);
      assert Honest(Run(settings, calendar, steps[..n]), steps[n]);
      StepKeepsCap(settings, calendar, Run(settings, calendar, steps[..n]), steps[n], f, cap);
    }
  }

  lemma NothingCharged(settings: Settings, calendar: Calendar, f: Frame, cap: real)
    requires Positive(settings) && Bounds(settings, calendar, f, cap)
    ensures WellFormed([]) && CapKept([], f, cap)
  {
    assert cap > 0.0;
  }

  // ----- the fan-out breaker -----

  ghost predicate FanoutKept(settings: Settings, log: Log) {
    settings.fanout.Some? ==>
      forall from, until :: until == from + settings.fanout.value.0 ==>
        Admitted(log, IntervalFrame(from, until)) <= settings.fanout.value.1
  }

  lemma GrantCounts(settings: Settings, calendar: Calendar, s: State, now: int, agent: string, estimate: real, from: int)
    requires ValidSettings(settings) && settings.fanout.Some? && WellFormed(s.log) && now >= 0
    requires from <= now <= from + settings.fanout.value.0
    requires AdmitVerdict(settings, calendar, s, now, agent, estimate).Granted?
    ensures Admitted(s.log, IntervalFrame(from, from + settings.fanout.value.0)) + 1 <= settings.fanout.value.1
  {
    hide UsageSince, SharedGauges, AgentGauges, FirstObjection, FirstCrossed, Charged, OpenUSD, OpenCount, RowsOf, Admitted;
    var span, limit := settings.fanout.value.0, settings.fanout.value.1;
    var f := IntervalFrame(from, from + span);
    var start := RollingStart(now, span);
    assert Sec(start) == Sec(now - span);
    SecMonotone(now - span, from);
    forall i | 0 <= i < |s.log| && InFrame(f, s.log[i]) ensures Sec(start) <= Sec(s.log[i].ts) {
      SecMonotone(from, s.log[i].ts);
    }
    ChargedIsVisible(s.log, f, start, "");
    assert FanoutObjection(settings, RowsOf(s.log), HeldOf(s.log, agent), now).None?;
  }

  lemma StepKeepsFanout(settings: Settings, calendar: Calendar, s: State, step: Step)
    requires ValidSettings(settings) && WellFormed(s.log) && FanoutKept(settings, s.log) && Honest(s, step)
    ensures WellFormed(Next(settings, calendar, s, step).log) && FanoutKept(settings, Next(settings, calendar, s, step).log)
  {
    hide AdmitVerdict;
    var after := Next(settings, calendar, s, step).log;
    if step.Admit? && AdmitVerdict(settings, calendar, s, step.now, step.agent, step.estimate).Granted? {
      GrantNonNegative(settings, calendar, s, step.now, step.agent, step.estimate);
    }
    if settings.fanout.Some? {
      forall from, until | until == from + settings.fanout.value.0
        ensures Admitted(after, IntervalFrame(from, until)) <= settings.fanout.value.1
      {
        var f := IntervalFrame(from, until);
        assert Admitted(s.log, f) <= settings.fanout.value.1;
        match step
        case Admit(now, agent, estimate) =>
          if AdmitVerdict(settings, calendar, s, now, agent, estimate).Granted? {
            var e := Entry(now, agent, AdmitVerdict(settings, calendar, s, now, agent, estimate).amount, Open);
            ChargedAppend(s.log, e, f);
            if InFrame(f, e) {
              GrantCounts(settings, calendar, s, now, agent, estimate, from);
            }
          }
        case Settle(index, cost, unsafe, insertOk) =>
          if index < |s.log| && s.log[index].status == Open {
            ChargedAfterStatus(s.log, index, Settled(cost, unsafe), f);
          }
        case Release(index) =>
          if index < |s.log| && s.log[index].status == Open {
            ChargedAfterStatus(s.log, index, Freed, f);
          }
      }
    }
  }

  /** The breaker likewise: in any rolling window, requests settled or in flight never exceed its limit. */
  lemma {:induction false} FanoutIsKept(settings: Settings, calendar: Calendar, steps: seq<Step>)
    requires ValidSettings(settings) && HonestRun(settings, calendar, steps)
    ensures WellFormed(Run(settings, calendar, steps).log) && FanoutKept(settings, Run(settings, calendar, steps).log)
  {
    hide Next, Honest, WellFormed, FanoutKept;
    if steps == [] {
      NothingAdmitted(settings);
    } else {
      var n := |steps| - 1;
      assert forall i :: 0 <= i < n ==> steps[..n][..i] == steps[..i];
      assert HonestRun(settings, calendar, steps[..n]) by {
        forall i | 0 <= i < n ensures Honest(Run(settings, calendar, steps[..n][..i]), steps[..n][i]) {
          assert Honest(Run(settings, calendar, steps[..i]), steps[i]);
        }
      }
      FanoutIsKept(settings, calendar, steps[..n]);
      assert Honest(Run(settings, calendar, steps[..n]), steps[n]);
      StepKeepsFanout(settings, calendar, Run(settings, calendar, steps[..n]), steps[n]);
    }
  }

  lemma NothingAdmitted(settings: Settings)
    requires ValidSettings(settings)
    ensures WellFormed([]) && FanoutKept(settings, [])
  {
  }
}
