/** No interleaving of Prepare, Commit, Cancel and Release overruns an enforced limit, even when
    requests carry timestamps out of order. */
module WindowSafety {
  import opened Common
  import opened PolicyTypes
  import opened Admission

  /** One enforced window limit, whichever list it came from. */
  datatype Cap = Cap(rule: Rule, counter: Counter, max: int, window: int, windowType: WindowType)

  ghost predicate Enforced(policy: Policy, cap: Cap) {
    cap.rule in policy.rules && RuleMode(policy, cap.rule) == Enforce
    && (RequestCap(cap) || TokenCap(cap) || DollarCap(cap))
  }

  ghost predicate RequestCap(cap: Cap) {
    exists i :: 0 <= i < |cap.rule.limits.requests| && var l := cap.rule.limits.requests[i];
      cap.counter == Requests && cap.max == l.max && cap.window == l.window && cap.windowType == l.windowType
  }

  ghost predicate TokenCap(cap: Cap) {
    exists i :: 0 <= i < |cap.rule.limits.tokens| && var l := cap.rule.limits.tokens[i];
      cap.counter == KindCounter(l.kind) && cap.max == l.max && cap.window == l.window && cap.windowType == l.windowType
  }

  ghost predicate DollarCap(cap: Cap) {
    exists i :: 0 <= i < |cap.rule.limits.dollars| && var l := cap.rule.limits.dollars[i];
      cap.counter == Cost && cap.max == l.maxMicroUSD && cap.window == l.window && cap.windowType == l.windowType
  }

  /** The intervals a limit speaks about: every closed interval as long as a rolling window, or
      every aligned slot of a fixed one. */
  ghost predicate Within(cap: Cap, from: int, until: int) {
    if cap.windowType == Rolling then until == from + cap.window
    else exists slot :: from == slot * cap.window && until == from + cap.window - 1
  }

  ghost predicate Respected(policy: Policy, cap: Cap, h: History) {
    forall from, until :: Within(cap, from, until) ==>
      UsageIn(h, Span(RuleKey(policy, cap.rule), from, Some(until)), LIVE, cap.counter) <= cap.max
  }

  ghost predicate SlotsRespected(policy: Policy, rule: Rule, h: History) {
    SlotsHeld(h, RuleKey(policy, rule)) <= rule.limits.concurrency
  }

  /** Steps of a run in which `policy` stays active; Commit, Cancel and Release are unrestricted. */
  predicate Under(policy: Policy, s: Step) {
    s.Prepare? ==> s.policy == Some(policy) && s.now >= 0
  }

  predicate RunUnder(policy: Policy, steps: seq<Step>) {
    forall i :: 0 <= i < |steps| ==> ValidStep(steps[i]) && Under(policy, steps[i])
  }

  lemma CapBounds(policy: Policy, cap: Cap)
    requires ValidPolicy(policy) && Enforced(policy, cap)
    ensures 1 <= cap.max <= MAX_INT64 && cap.window > 0 && ValidRule(policy, cap.rule) && HasCounters(cap.rule)
  {
  }

  ghost predicate Fits(context: Context, counter: Counter, max: int, key: Key, cutoff: int, h: History) {
    var added := Amount(AdmissionUsage(context), counter);
    added == 0 || UsageIn(h, Span(key, cutoff, None), LIVE, counter) + added <= max
  }

  lemma RequestFits(limit: WindowLimit, context: Context, key: Key, now: int, h: History)
    requires limit.window > 0 && limit.max <= MAX_INT64 && !RequestExceeded(limit, key, now, h, false)
    ensures Fits(context, Requests, limit.max, key, WindowStart(now, limit.window, limit.windowType), h)
  {
    hide UsageIn, WindowStart;
  }

  lemma TokenFits(limit: WindowLimit, context: Context, key: Key, now: int, h: History)
    requires limit.window > 0 && limit.max <= MAX_INT64 && !TokenExceeded(limit, context, key, now, h, false)
    requires !BadEstimate(context)
    ensures Fits(context, KindCounter(limit.kind), limit.max, key, WindowStart(now, limit.window, limit.windowType), h)
  {
    hide UsageIn, WindowStart;
  }

  lemma DollarFits(limit: DollarLimit, context: Context, key: Key, now: int, h: History)
    requires limit.window > 0 && limit.maxMicroUSD <= MAX_INT64 && !DollarObjects(limit, context, key, now, h, false)
    requires !BadEstimate(context)
    ensures Fits(context, Cost, limit.maxMicroUSD, key, WindowStart(now, limit.window, limit.windowType), h)
  {
    hide UsageIn, WindowStart, ConservativeCostMicroUSD;
  }

  lemma Unbroken(policy: Policy, rule: Rule, context: Context, now: int, h: History)
    requires ValidPolicy(policy) && rule in policy.rules && RuleMode(policy, rule) == Enforce
    requires Applies(policy, rule, context) && Admits(policy, context, now, h)
    ensures !BadEstimate(context) && ValidRule(policy, rule) && !Broken(policy, rule, context, now, h, false, true)
  {
    hide Decide, Applies, Broken, BadEstimate, Unrepresentable, RuleMode;
    DeniedIffBroken(policy, context, now, h, false);
  }

  /** What an admitted request adds to a window it was checked against leaves room in it, counted
      with unbounded integers although the check itself saturates. */
  lemma AdmittedFits(policy: Policy, cap: Cap, context: Context, now: int, h: History)
    requires ValidPolicy(policy) && Enforced(policy, cap) && now >= 0
    requires Applies(policy, cap.rule, context) && Admits(policy, context, now, h)
    ensures cap.window > 0
    ensures Fits(context, cap.counter, cap.max, RuleKey(policy, cap.rule), WindowStart(now, cap.window, cap.windowType), h)
  {
    hide Decide, Applies, StaticBroken, IdentityViolations, SlotsExceeded, RequestExceeded, TokenExceeded, DollarObjects;
    hide Fits, WindowStart, BadEstimate, Admits;
    CapBounds(policy, cap);
    Unbroken(policy, cap.rule, context, now, h);
    var key := RuleKey(policy, cap.rule);
    if RequestCap(cap) {
      var i :| 0 <= i < |cap.rule.limits.requests| && var l := cap.rule.limits.requests[i];
        cap.counter == Requests && cap.max == l.max && cap.window == l.window && cap.windowType == l.windowType;
      assert !RequestExceeded(cap.rule.limits.requests[i], key, now, h, false);
      RequestFits(cap.rule.limits.requests[i], context, key, now, h);
    } else if TokenCap(cap) {
      var i :| 0 <= i < |cap.rule.limits.tokens| && var l := cap.rule.limits.tokens[i];
        cap.counter == KindCounter(l.kind) && cap.max == l.max && cap.window == l.window && cap.windowType == l.windowType;
      assert !TokenExceeded(cap.rule.limits.tokens[i], context, key, now, h, false);
      TokenFits(cap.rule.limits.tokens[i], context, key, now, h);
    } else {
      var i :| 0 <= i < |cap.rule.limits.dollars| && var l := cap.rule.limits.dollars[i];
        cap.counter == Cost && cap.max == l.maxMicroUSD && cap.window == l.window && cap.windowType == l.windowType;
      assert !DollarObjects(cap.rule.limits.dollars[i], context, key, now, h, false);
      DollarFits(cap.rule.limits.dollars[i], context, key, now, h);
    }
  }

  /** A window that contains `now` starts no earlier than the cutoff used at `now`. */
  lemma CutoffCovers(cap: Cap, now: int, from: int, until: int)
    requires cap.window > 0 && now >= 0 && Within(cap, from, until) && from <= now <= until
    ensures WindowStart(now, cap.window, cap.windowType) <= from
  {
    if cap.windowType == Fixed {
      var slot :| from == slot * cap.window && until == from + cap.window - 1;
      SlotOf(now, cap.window, slot);
    }
  }

  lemma SlotOf(now: int, window: int, slot: int)
    requires window > 0 && now >= 0 && slot * window <= now < slot * window + window
    ensures now - now % window == slot * window
  {
    var q := now / window;
    assert now == q * window + now % window;
    if q < slot {
      assert (q + 1) * window == q * window + window;
      ProductMonotone(q + 1, slot, window);
    } else if q > slot {
      ProductMonotone(slot + 1, q, window);
    }
  }

  lemma NewEntryWellFormed(policy: Policy, context: Context, now: int, h: History)
    requires WellFormed(h) && !BadEstimate(context)
    ensures WellFormed(h + [NewEntry(policy, context, now)])
  {
    assert NonNegative(AdmissionUsage(context));
  }

  lemma AdmittedKeepsCap(policy: Policy, cap: Cap, h: History, context: Context, now: int)
    requires ValidPolicy(policy) && Enforced(policy, cap) && WellFormed(h) && Respected(policy, cap, h)
    requires now >= 0 && Admits(policy, context, now, h)
    ensures Respected(policy, cap, h + [NewEntry(policy, context, now)])
  {
    hide Admits, Enforced, ValidPolicy, Applies, CounterKeys, SlotKeys, AdmissionUsage;
    var e := NewEntry(policy, context, now);
    var key := RuleKey(policy, cap.rule);
    forall from, until | Within(cap, from, until)
      ensures UsageIn(h + [e], Span(key, from, Some(until)), LIVE, cap.counter) <= cap.max
    {
      var span := Span(key, from, Some(until));
      UsageAppend(h, e, span, LIVE, cap.counter);
      if Covers(span, LIVE, e) {
        EntryCoversRule(policy, cap, context);
        AdmittedFits(policy, cap, context, now, h);
        CutoffCovers(cap, now, from, until);
        var open := Span(key, WindowStart(now, cap.window, cap.windowType), None);
        UsageWidens(h, span, open, LIVE, LIVE, cap.counter);
      }
    }
  }

  lemma EntryCoversRule(policy: Policy, cap: Cap, context: Context)
    requires ValidPolicy(policy) && Enforced(policy, cap)
    requires RuleKey(policy, cap.rule) in CounterKeys(policy, context)
    ensures Applies(policy, cap.rule, context)
  {
    hide Applies, ApplicableRules;
    KeyApplies(policy, context, cap.rule);
  }

  /** Commit, Cancel and Release never add usage to any span. */
  lemma StatusOnlyFrees(h: History, index: nat, status: Status, span: Span, counter: Counter)
    requires WellFormed(h) && index < |h| && (h[index].status in LIVE || status == Dropped)
    ensures WellFormed(WithStatus(h, index, status))
    ensures UsageIn(WithStatus(h, index, status), span, LIVE, counter) <= UsageIn(h, span, LIVE, counter)
  {
    UsageAfterStatus(h, index, status, span, LIVE, counter);
  }

  lemma StatusKeepsCap(policy: Policy, cap: Cap, h: History, index: nat, status: Status)
    requires WellFormed(h) && index < |h| && h[index].status in LIVE && Respected(policy, cap, h)
    ensures WellFormed(WithStatus(h, index, status)) && Respected(policy, cap, WithStatus(h, index, status))
  {
    hide UsageIn, WithStatus;
    var key := RuleKey(policy, cap.rule);
    StatusOnlyFrees(h, index, status, Span(key, 0, None), cap.counter);
    forall from, until | Within(cap, from, until)
      ensures UsageIn(WithStatus(h, index, status), Span(key, from, Some(until)), LIVE, cap.counter) <= cap.max
    {
      StatusOnlyFrees(h, index, status, Span(key, from, Some(until)), cap.counter);
    }
  }

  lemma StepKeepsCap(policy: Policy, cap: Cap, h: History, s: Step)
    requires ValidPolicy(policy) && Enforced(policy, cap) && WellFormed(h) && Respected(policy, cap, h)
    requires Under(policy, s)
    ensures WellFormed(Next(h, s)) && Respected(policy, cap, Next(h, s))
  {
    hide Respected, Enforced, Applies, Decide, ConservativeCostMicroUSD;
    match s
    case Prepare(now, context, p, storeOk) =>
      if storeOk && Admits(policy, context, now, h) {
        AdmittedKeepsCap(policy, cap, h, context, now);
        NewEntryWellFormed(policy, context, now, h);
      }
    case Commit(index, storeOk) =>
      if index < |h| && h[index].status == Prepared {
        StatusKeepsCap(policy, cap, h, index, if storeOk then Committed else Dropped);
      }
    case Cancel(index) =>
      if index < |h| && h[index].status == Prepared {
        StatusKeepsCap(policy, cap, h, index, Dropped);
      }
    case Release(index) =>
      if index < |h| && h[index].status == Prepared {
        StatusKeepsCap(policy, cap, h, index, Dropped);
      } else if index < |h| && h[index].status == Committed {
        StatusKeepsCap(policy, cap, h, index, Done);
      }
  }

  // ----- what was let through -----

  /** One request the engine let through. */
  datatype Ask = Ask(now: int, context: Context)

  /** The requests that were let through, in the order of their reservations. */
  ghost function Asks(steps: seq<Step>): seq<Ask>
    requires forall i :: 0 <= i < |steps| ==> ValidStep(steps[i])
  {
    if steps == [] then []
    else
      var n := |steps| - 1;
      Asks(steps[..n])
      + (if steps[n].Prepare? && |Run(steps)| > |Run(steps[..n])| then [Ask(steps[n].now, steps[n].context)] else [])
  }

  /** Every entry is what its request leaves behind. */
  ghost predicate Matched(policy: Policy, h: History, asks: seq<Ask>) {
    |asks| == |h| && forall i :: 0 <= i < |h| ==> Leaves(policy, asks[i].context, asks[i].now, h[i]) && !BadEstimate(asks[i].context)
  }

  lemma AnyStatus(policy: Policy, context: Context, now: int, e: Entry, status: Status)
    requires Leaves(policy, context, now, e)
    ensures Leaves(policy, context, now, e.(status := status))
  {
    hide Applies, HasCounters, ConservativeCostMicroUSD;
  }

  lemma StatusKeepsMatch(policy: Policy, h: History, asks: seq<Ask>, index: nat, status: Status)
    requires Matched(policy, h, asks) && index < |h|
    ensures Matched(policy, WithStatus(h, index, status), asks)
  {
    hide Leaves, BadEstimate;
    AnyStatus(policy, asks[index].context, asks[index].now, h[index], status);
  }

  lemma NextMatches(policy: Policy, h: History, asks: seq<Ask>, s: Step)
    requires ValidPolicy(policy) && Matched(policy, h, asks) && ValidStep(s) && Under(policy, s)
    ensures |Next(h, s)| >= |h|
    ensures Matched(policy, Next(h, s), asks + (if s.Prepare? && |Next(h, s)| > |h| then [Ask(s.now, s.context)] else []))
  {
    hide NewEntry, Decide, Unrepresentable, ValidPolicy, Leaves;
    assert asks + [] == asks;
    if s.Prepare? {
      if |Next(h, s)| > |h| {
        var e := NewEntry(policy, s.context, s.now);
        EntryLeft(policy, s.context, s.now);
        assert e.(status := Prepared) == e && Next(h, s) == h + [e];
      }
    } else if s.index < |h| {
      StatusKeepsMatch(policy, h, asks, s.index, Next(h, s)[s.index].status);
    }
  }

  lemma {:induction false} RunMatches(policy: Policy, steps: seq<Step>)
    requires ValidPolicy(policy) && RunUnder(policy, steps)
    ensures Matched(policy, Run(steps), Asks(steps))
  {
    hide Next, ValidPolicy, Leaves, BadEstimate;
    if steps != [] {
      var n := |steps| - 1;
      RunMatches(policy, steps[..n]);
      assert ValidStep(steps[n]) && Under(policy, steps[n]);
      NextMatches(policy, Run(steps[..n]), Asks(steps[..n]), steps[n]);
    }
  }

  /** Window safety: over every run under one policy, the usage any enforced limit counts inside
      any of its windows stays within the limit; and what is counted is what was asked for. */
  lemma {:induction false} WindowsAreSafe(policy: Policy, cap: Cap, steps: seq<Step>)
    requires ValidPolicy(policy) && Enforced(policy, cap)
    requires RunUnder(policy, steps)
    ensures WellFormed(Run(steps)) && Respected(policy, cap, Run(steps))
    ensures Matched(policy, Run(steps), Asks(steps))
  {
    hide Respected, Enforced, ValidPolicy, Next, WellFormed, Matched;
    RunMatches(policy, steps);
    if steps == [] {
      EmptyRespects(policy, cap);
    } else {
      WindowsAreSafe(policy, cap, steps[..|steps| - 1]);
      StepKeepsCap(policy, cap, Run(steps[..|steps| - 1]), steps[|steps| - 1]);
    }
  }

  lemma EmptyRespects(policy: Policy, cap: Cap)
    requires ValidPolicy(policy) && Enforced(policy, cap)
    ensures WellFormed([]) && Respected(policy, cap, [])
  {
    CapBounds(policy, cap);
  }

  // ----- concurrency -----

  lemma AdmittedKeepsSlots(policy: Policy, rule: Rule, h: History, context: Context, now: int)
    requires ValidPolicy(policy) && rule in policy.rules && RuleMode(policy, rule) == Enforce && rule.limits.concurrency > 0
    requires SlotsRespected(policy, rule, h) && Admits(policy, context, now, h)
    ensures SlotsRespected(policy, rule, h + [NewEntry(policy, context, now)])
  {
    hide Applies, Decide, ConservativeCostMicroUSD, StaticBroken, RequestExceeded, TokenExceeded, DollarObjects;
    hide CounterKeys, SlotKeys, AdmissionUsage;
    SlotsAppend(h, NewEntry(policy, context, now), RuleKey(policy, rule));
    KeyApplies(policy, context, rule);
    if Applies(policy, rule, context) {
      DeniedIffBroken(policy, context, now, h, false);
      assert !Broken(policy, rule, context, now, h, false, true);
    }
  }

  lemma StepKeepsSlots(policy: Policy, rule: Rule, h: History, s: Step)
    requires ValidPolicy(policy) && rule in policy.rules && RuleMode(policy, rule) == Enforce && rule.limits.concurrency > 0
    requires Under(policy, s) && SlotsRespected(policy, rule, h)
    ensures SlotsRespected(policy, rule, Next(h, s))
  {
    hide Admits, NewEntry, SlotsHeld;
    var key := RuleKey(policy, rule);
    match s
    case Prepare(now, context, p, storeOk) =>
      if storeOk && Admits(policy, context, now, h) {
        AdmittedKeepsSlots(policy, rule, h, context, now);
      }
    case Commit(index, storeOk) =>
      if index < |h| && h[index].status == Prepared {
        SlotsAfterStatus(h, index, if storeOk then Committed else Dropped, key);
      }
    case Cancel(index) =>
      if index < |h| && h[index].status == Prepared { SlotsAfterStatus(h, index, Dropped, key); }
    case Release(index) =>
      if index < |h| && h[index].status == Prepared { SlotsAfterStatus(h, index, Dropped, key); }
      else if index < |h| && h[index].status == Committed { SlotsAfterStatus(h, index, Done, key); }
  }

  /** An enforced rule never holds more slots than its concurrency limit. */
  lemma {:induction false} ConcurrencyIsSafe(policy: Policy, rule: Rule, steps: seq<Step>)
    requires ValidPolicy(policy) && rule in policy.rules && RuleMode(policy, rule) == Enforce && rule.limits.concurrency > 0
    requires RunUnder(policy, steps)
    ensures SlotsRespected(policy, rule, Run(steps))
  {
    hide Next, ValidPolicy;
    if steps != [] {
      ConcurrencyIsSafe(policy, rule, steps[..|steps| - 1]);
      StepKeepsSlots(policy, rule, Run(steps[..|steps| - 1]), steps[|steps| - 1]);
    }
  }

  // ----- every reservation is given back exactly once -----

  /** Closing a reservation twice, or in any order of Commit, Cancel and Release, changes nothing
      after the first close. */
  lemma ClosedStaysClosed(h: History, s: Step, index: nat)
    requires ValidStep(s) && index < |h| && (h[index].status == Done || h[index].status == Dropped)
    ensures index < |Next(h, s)| && Next(h, s)[index] == h[index]
  {
    hide Admits, NewEntry;
  }

  /** When every reservation is closed, nothing is pending and no slot is held under any key. */
  lemma {:induction false} QuiescenceIsEmpty(h: History, key: Key, span: Span, counter: Counter)
    requires Quiescent(h)
    ensures SlotsHeld(h, key) == 0 && UsageIn(h, span, PENDING, counter) == 0
  {
    if h != [] {
      QuiescenceIsEmpty(h[..|h| - 1], key, span, counter);
    }
  }
}
