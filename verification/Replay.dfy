/** Replaying history: the live engine driven over recorded requests, the same decisions taken
    with exact sums, and the proof that the two never disagree about what is blocked. */
module Replay {
  import opened Common
  import opened PolicyTypes
  import opened Admission
  import opened WindowSafety

  datatype Sample = Sample(ts: int, end: int, context: Context, admissionKnown: bool)

  datatype Outcome = Block | WarnOnly | ObserveOnly | Pass

  /** Entries admitted so far, when each one's request ended, and what happened to every sample. */
  datatype State = State(history: History, ends: seq<int>, outcomes: seq<Outcome>)

  /** Releases, oldest first, every reservation whose request has ended by `now`. */
  function ReleaseEnded(h: History, ends: seq<int>, now: int, n: nat): (r: History)
    requires n <= |ends|
    ensures |r| == |h|
  {
    if n == 0 then h
    else
      var before := ReleaseEnded(h, ends, now, n - 1);
      if ends[n - 1] <= now then Next(before, Release(n - 1)) else before
  }

  // ----- the live engine over the samples -----

  /** Each admitted request is committed at once and released before the first sample at or after
      its end. A sample the engine does not admit leaves it unchanged. */
  function LiveStep(policy: Policy, s: State, sample: Sample): State
    requires ValidPolicy(policy)
  {
    var open := ReleaseEnded(s.history, s.ends, sample.ts, |s.ends|);
    var prepared := Next(open, Prepare(sample.ts, sample.context, Some(policy), true));
    if |prepared| == |open| + 1
    then State(Next(prepared, Commit(|open|, true)), s.ends + [sample.end], s.outcomes + [Pass])
    else State(prepared, s.ends, s.outcomes + [Block])
  }

  function LiveReplay(policy: Policy, samples: seq<Sample>): State
    requires ValidPolicy(policy)
  {
    if samples == [] then State([], [], [])
    else LiveStep(policy, LiveReplay(policy, samples[..|samples| - 1]), samples[|samples| - 1])
  }

  // ----- the same decisions with exact sums -----

  /** Some applicable rule of the given mode is broken, counting with unbounded integers. */
  ghost predicate SomeBroken(policy: Policy, mode: Mode, sample: Sample, h: History)
    requires ValidPolicy(policy)
  {
    exists rule :: rule in policy.rules && Applies(policy, rule, sample.context) && RuleMode(policy, rule) == mode
                   && Broken(policy, rule, sample.context, sample.ts, h, true, sample.admissionKnown)
  }

  ghost function ExactOutcome(policy: Policy, sample: Sample, h: History): Outcome
    requires ValidPolicy(policy)
  {
    if SomeBroken(policy, Enforce, sample, h) then Block
    else if SomeBroken(policy, Warn, sample, h) then WarnOnly
    else if SomeBroken(policy, Observe, sample, h) then ObserveOnly
    else Pass
  }

  ghost function ExactStep(policy: Policy, s: State, sample: Sample): State
    requires ValidPolicy(policy)
  {
    var open := ReleaseEnded(s.history, s.ends, sample.ts, |s.ends|);
    var outcome := ExactOutcome(policy, sample, open);
    if outcome == Block then State(open, s.ends, s.outcomes + [outcome])
    else State(open + [NewEntry(policy, sample.context, sample.ts).(status := Committed)], s.ends + [sample.end],
               s.outcomes + [outcome])
  }

  ghost function ExactReplay(policy: Policy, samples: seq<Sample>): State
    requires ValidPolicy(policy)
  {
    if samples == [] then State([], [], [])
    else ExactStep(policy, ExactReplay(policy, samples[..|samples| - 1]), samples[|samples| - 1])
  }

  // ----- what the exact replay says -----

  /** The modes of the rules that apply to the sample and are broken. */
  ghost function BrokenModes(policy: Policy, sample: Sample, h: History): set<Mode>
    requires ValidPolicy(policy)
  {
    set rule | rule in policy.rules && Applies(policy, rule, sample.context)
               && Broken(policy, rule, sample.context, sample.ts, h, true, sample.admissionKnown) :: RuleMode(policy, rule)
  }

  /** A broken enforcing rule blocks; failing that a broken warning rule warns, and failing both a
      broken observing rule observes. */
  ghost predicate Judged(policy: Policy, sample: Sample, h: History, outcome: Outcome)
    requires ValidPolicy(policy)
  {
    var modes := BrokenModes(policy, sample, h);
    (outcome == Block <==> Enforce in modes)
    && (outcome == WarnOnly <==> Warn in modes && Enforce !in modes)
    && (outcome == ObserveOnly <==> modes == {Observe})
    && (outcome == Pass <==> modes == {})
  }

  lemma OutcomeJudged(policy: Policy, sample: Sample, h: History)
    requires ValidPolicy(policy)
    ensures Judged(policy, sample, h, ExactOutcome(policy, sample, h))
  {
    hide Broken, Applies, ValidRule, RuleMode;
    var modes := BrokenModes(policy, sample, h);
    forall mode: Mode ensures SomeBroken(policy, mode, sample, h) <==> mode in modes {
    }
    assert Enforce in modes || Warn in modes || Observe in modes || modes == {} by {
      if mode :| mode in modes {
        assert mode == Enforce || mode == Warn || mode == Observe;
      }
    }
  }

  /** What stands when the replay comes to sample `i`. */
  ghost function Standing(policy: Policy, samples: seq<Sample>, i: nat): History
    requires ValidPolicy(policy) && i < |samples|
  {
    var s := ExactReplay(policy, samples[..i]);
    ReleaseEnded(s.history, s.ends, samples[i].ts, |s.ends|)
  }

  lemma StandingInPrefix(policy: Policy, samples: seq<Sample>, n: nat, i: nat)
    requires ValidPolicy(policy) && i < n <= |samples|
    ensures Standing(policy, samples[..n], i) == Standing(policy, samples, i)
  {
    hide ValidPolicy, ExactReplay, ReleaseEnded;
    assert samples[..n][..i] == samples[..i];
  }

  /** Every sample is judged by what stands when the replay comes to it. */
  lemma {:induction false} OutcomesExactly(policy: Policy, samples: seq<Sample>)
    requires ValidPolicy(policy)
    ensures |ExactReplay(policy, samples).outcomes| == |samples|
    ensures forall i :: 0 <= i < |samples| ==> Judged(policy, samples[i], Standing(policy, samples, i), ExactReplay(policy, samples).outcomes[i])
  {
    hide ValidPolicy, Judged, ExactOutcome, ReleaseEnded, Standing, NewEntry;
    if samples != [] {
      var n := |samples| - 1;
      OutcomesExactly(policy, samples[..n]);
      forall i | 0 <= i < n
        ensures samples[..n][i] == samples[i] && Standing(policy, samples[..n], i) == Standing(policy, samples, i)
      {
        StandingInPrefix(policy, samples, n, i);
      }
      StandingIsOpen(policy, samples, n);
      OutcomeJudged(policy, samples[n], Standing(policy, samples, n));
    }
  }

  lemma StandingIsOpen(policy: Policy, samples: seq<Sample>, i: nat)
    requires ValidPolicy(policy) && i < |samples|
    ensures var s := ExactReplay(policy, samples[..i]);
            Standing(policy, samples, i) == ReleaseEnded(s.history, s.ends, samples[i].ts, |s.ends|)
  {
    hide ValidPolicy, ExactReplay, ReleaseEnded;
  }

  /** The samples that are not blocked, in their order. */
  function Unblocked(samples: seq<Sample>, outcomes: seq<Outcome>): seq<Sample>
    requires |samples| == |outcomes|
  {
    if samples == [] then []
    else
      var n := |samples| - 1;
      Unblocked(samples[..n], outcomes[..n]) + (if outcomes[n] == Block then [] else [samples[n]])
  }

  /** One entry for every sample that is not blocked, holding what the sample asked for; it is
      released only once its request has ended. */
  ghost predicate Kept(policy: Policy, kept: seq<Sample>, h: History, ends: seq<int>, now: int) {
    |kept| == |h| == |ends|
    && forall k :: 0 <= k < |kept| ==>
         ends[k] == kept[k].end && Leaves(policy, kept[k].context, kept[k].ts, h[k])
         && (h[k].status == Committed || (h[k].status == Done && kept[k].end <= now))
  }

  lemma KeptWhenReleased(policy: Policy, kept: seq<Sample>, h: History, ends: seq<int>, before: int, now: int)
    requires Kept(policy, kept, h, ends, before) && before <= now
    ensures Kept(policy, kept, ReleaseEnded(h, ends, now, |ends|), ends, now)
    ensures forall k :: 0 <= k < |kept| ==> ReleaseEnded(h, ends, now, |ends|)[k].status == if kept[k].end <= now then Done else Committed
  {
    hide Leaves, ReleaseEnded;
    ReleaseEndedEffect(h, ends, now, |ends|);
    var open := ReleaseEnded(h, ends, now, |ends|);
    forall k | 0 <= k < |kept| ensures Leaves(policy, kept[k].context, kept[k].ts, open[k]) {
      assert SameButStatus(open[k], h[k]);
      AnyStatus(policy, kept[k].context, kept[k].ts, h[k], open[k].status);
    }
  }

  lemma KeptAppend(policy: Policy, kept: seq<Sample>, h: History, ends: seq<int>, sample: Sample, now: int)
    requires ValidPolicy(policy) && Kept(policy, kept, h, ends, now)
    ensures Kept(policy, kept + [sample], h + [NewEntry(policy, sample.context, sample.ts).(status := Committed)], ends + [sample.end], now)
  {
    hide Leaves, NewEntry, ValidPolicy;
    EntryLeft(policy, sample.context, sample.ts);
  }

  lemma {:induction false} ReplayKeeps(policy: Policy, samples: seq<Sample>)
    requires ValidPolicy(policy) && forall i, j :: 0 <= i < j < |samples| ==> samples[i].ts <= samples[j].ts
    ensures var s := ExactReplay(policy, samples);
            |s.outcomes| == |samples|
            && Kept(policy, Unblocked(samples, s.outcomes), s.history, s.ends, if samples == [] then 0 else samples[|samples| - 1].ts)
  {
    hide ValidPolicy, ExactOutcome, Kept, NewEntry, ReleaseEnded;
    if samples == [] {
      NothingKept(policy);
    } else {
      var n := |samples| - 1;
      ReplayKeeps(policy, samples[..n]);
      var before, s := ExactReplay(policy, samples[..n]), ExactReplay(policy, samples);
      assert s.outcomes[..n] == before.outcomes;
      var kept := Unblocked(samples[..n], before.outcomes);
      var open := ReleaseEnded(before.history, before.ends, samples[n].ts, |before.ends|);
      if n == 0 {
        NothingKept(policy);
      }
      KeptWhenReleased(policy, kept, before.history, before.ends, if n == 0 then samples[n].ts else samples[n - 1].ts, samples[n].ts);
      KeptAppend(policy, kept, open, before.ends, samples[n], samples[n].ts);
      assert kept + [] == kept;
    }
  }

  lemma NothingKept(policy: Policy)
    requires ValidPolicy(policy)
    ensures ExactReplay(policy, []) == State([], [], []) && Unblocked([], []) == []
    ensures forall now :: Kept(policy, [], [], [], now)
  {
  }

  /** When the replay comes to a sample, each earlier one that was not blocked counts what it asked
      for, and holds its slots exactly if it has not ended yet. */
  lemma StandingExactly(policy: Policy, samples: seq<Sample>, i: nat)
    requires ValidPolicy(policy) && i < |samples| && forall i, j :: 0 <= i < j < |samples| ==> samples[i].ts <= samples[j].ts
    ensures var outcomes, h := ExactReplay(policy, samples[..i]).outcomes, Standing(policy, samples, i);
            |outcomes| == i
            && var kept := Unblocked(samples[..i], outcomes);
               |kept| == |h|
               && forall k :: 0 <= k < |kept| ==>
                    Leaves(policy, kept[k].context, kept[k].ts, h[k])
                    && h[k].status == if kept[k].end <= samples[i].ts then Done else Committed
  {
    hide ValidPolicy, ExactReplay, Unblocked, ReleaseEnded, Leaves;
    var s := ExactReplay(policy, samples[..i]);
    ReplayKeeps(policy, samples[..i]);
    if i == 0 {
      NothingKept(policy);
    }
    KeptWhenReleased(policy, Unblocked(samples[..i], s.outcomes), s.history, s.ends, if i == 0 then samples[i].ts else samples[i - 1].ts, samples[i].ts);
  }

  // ----- what both replays keep -----

  ghost predicate SameButStatus(a: Entry, b: Entry) {
    a == b.(status := a.status)
  }

  lemma {:induction false} ReleaseEndedEffect(h: History, ends: seq<int>, now: int, n: nat)
    requires n <= |ends| && |ends| == |h|
    requires forall i :: 0 <= i < |h| ==> h[i].status == Committed || h[i].status == Done
    ensures forall i :: 0 <= i < |h| ==> SameButStatus(ReleaseEnded(h, ends, now, n)[i], h[i])
    ensures forall i :: 0 <= i < |h| ==>
              ReleaseEnded(h, ends, now, n)[i].status == if i < n && ends[i] <= now then Done else h[i].status
  {
    if n > 0 {
      ReleaseEndedEffect(h, ends, now, n - 1);
    }
  }

  /** Every entry is in flight or done, one end per entry, and none is dated after `now`. */
  ghost predicate Sound(s: State, now: int) {
    |s.ends| == |s.history| && WellFormed(s.history)
    && forall i :: 0 <= i < |s.history| ==>
         (s.history[i].status == Committed || s.history[i].status == Done) && s.history[i].ts <= now
  }

  ghost predicate AllRespected(policy: Policy, h: History)
    requires ValidPolicy(policy)
  {
    forall cap :: Enforced(policy, cap) ==> Respected(policy, cap, h)
  }

  lemma {:induction false} ReleaseEndedSafe(policy: Policy, h: History, ends: seq<int>, now: int, n: nat)
    requires ValidPolicy(policy) && WellFormed(h) && AllRespected(policy, h) && n <= |ends|
    ensures WellFormed(ReleaseEnded(h, ends, now, n)) && AllRespected(policy, ReleaseEnded(h, ends, now, n))
  {
    hide ValidPolicy, Respected, Enforced, WellFormed, Next;
    if n > 0 {
      ReleaseEndedSafe(policy, h, ends, now, n - 1);
      SafeStep(policy, ReleaseEnded(h, ends, now, n - 1), Release(n - 1));
    }
  }

  lemma SafeStep(policy: Policy, h: History, s: Step)
    requires ValidPolicy(policy) && WellFormed(h) && AllRespected(policy, h) && ValidStep(s) && Under(policy, s)
    ensures WellFormed(Next(h, s)) && AllRespected(policy, Next(h, s))
  {
    hide ValidPolicy, Respected, Enforced, Next;
    StepKeepsWellFormed(h, s);
    forall cap | Enforced(policy, cap) ensures Respected(policy, cap, Next(h, s)) {
      StepKeepsCap(policy, cap, h, s);
    }
  }

  lemma StepKeepsWellFormed(h: History, s: Step)
    requires WellFormed(h) && ValidStep(s)
    ensures WellFormed(Next(h, s))
  {
    hide Decide, ConservativeCostMicroUSD, CounterKeys, SlotKeys;
    if s.Prepare? && s.policy.Some? && s.storeOk && Admits(s.policy.value, s.context, s.now, h) {
      NewEntryWellFormed(s.policy.value, s.context, s.now, h);
    }
  }

  // ----- saturation is invisible to enforcing rules -----

  /** When nothing is dated after `now`, what an enforced limit's window shows is within the limit,
      so the int64 reading of it is exact. */
  lemma SaturationUnreached(policy: Policy, cap: Cap, h: History, now: int)
    requires ValidPolicy(policy) && Enforced(policy, cap) && Respected(policy, cap, h) && now >= 0
    requires forall i :: 0 <= i < |h| ==> h[i].ts <= now
    ensures cap.window > 0
    ensures var cutoff := WindowStart(now, cap.window, cap.windowType);
            Current(h, RuleKey(policy, cap.rule), cutoff, cap.counter, false)
            == Current(h, RuleKey(policy, cap.rule), cutoff, cap.counter, true)
  {
    CapBounds(policy, cap);
    var cutoff := WindowStart(now, cap.window, cap.windowType);
    var key := RuleKey(policy, cap.rule);
    var until := if cap.windowType == Rolling then now else cutoff + cap.window - 1;
    WindowAtNow(cap, now);
    assert now % cap.window < cap.window;
    SameWhenBounded(h, key, cutoff, until, cap.counter);
    assert UsageIn(h, Span(key, cutoff, Some(until)), LIVE, cap.counter) <= cap.max;
  }

  lemma WindowAtNow(cap: Cap, now: int)
    requires cap.window > 0 && now >= 0
    ensures Within(cap, WindowStart(now, cap.window, cap.windowType),
                   if cap.windowType == Rolling then now else WindowStart(now, cap.window, cap.windowType) + cap.window - 1)
  {
    if cap.windowType == Fixed {
      assert now - now % cap.window == (now / cap.window) * cap.window;
    }
  }

  lemma {:induction false} SameWhenBounded(h: History, key: Key, cutoff: int, until: int, counter: Counter)
    requires forall i :: 0 <= i < |h| ==> h[i].ts <= until
    ensures UsageIn(h, Span(key, cutoff, None), LIVE, counter) == UsageIn(h, Span(key, cutoff, Some(until)), LIVE, counter)
  {
    if h != [] {
      SameWhenBounded(h[..|h| - 1], key, cutoff, until, counter);
    }
  }

  lemma RequestsExact(policy: Policy, rule: Rule, i: nat, h: History, now: int)
    requires ValidPolicy(policy) && rule in policy.rules && RuleMode(policy, rule) == Enforce && AllRespected(policy, h)
    requires now >= 0 && forall j :: 0 <= j < |h| ==> h[j].ts <= now
    requires i < |rule.limits.requests|
    ensures rule.limits.requests[i].window > 0
    ensures RequestExceeded(rule.limits.requests[i], RuleKey(policy, rule), now, h, true)
            == RequestExceeded(rule.limits.requests[i], RuleKey(policy, rule), now, h, false)
  {
    hide Current, WindowStart, Respected;
    var l := rule.limits.requests[i];
    var cap := Cap(rule, Requests, l.max, l.window, l.windowType);
    assert RequestCap(cap);
    SaturationUnreached(policy, cap, h, now);
  }

  lemma TokensExact(policy: Policy, rule: Rule, i: nat, context: Context, h: History, now: int)
    requires ValidPolicy(policy) && rule in policy.rules && RuleMode(policy, rule) == Enforce && AllRespected(policy, h)
    requires now >= 0 && forall j :: 0 <= j < |h| ==> h[j].ts <= now
    requires i < |rule.limits.tokens|
    ensures rule.limits.tokens[i].window > 0
    ensures TokenExceeded(rule.limits.tokens[i], context, RuleKey(policy, rule), now, h, true)
            == TokenExceeded(rule.limits.tokens[i], context, RuleKey(policy, rule), now, h, false)
  {
    hide Current, WindowStart, Respected;
    var l := rule.limits.tokens[i];
    var cap := Cap(rule, KindCounter(l.kind), l.max, l.window, l.windowType);
    assert TokenCap(cap);
    SaturationUnreached(policy, cap, h, now);
  }

  lemma DollarsExact(policy: Policy, rule: Rule, i: nat, context: Context, h: History, now: int)
    requires ValidPolicy(policy) && rule in policy.rules && RuleMode(policy, rule) == Enforce && AllRespected(policy, h)
    requires now >= 0 && forall j :: 0 <= j < |h| ==> h[j].ts <= now
    requires i < |rule.limits.dollars|
    ensures rule.limits.dollars[i].window > 0
    ensures DollarObjects(rule.limits.dollars[i], context, RuleKey(policy, rule), now, h, true)
            == DollarObjects(rule.limits.dollars[i], context, RuleKey(policy, rule), now, h, false)
  {
    hide Current, WindowStart, Respected;
    var l := rule.limits.dollars[i];
    var cap := Cap(rule, Cost, l.maxMicroUSD, l.window, l.windowType);
    assert DollarCap(cap);
    SaturationUnreached(policy, cap, h, now);
  }

  lemma BrokenExact(policy: Policy, rule: Rule, context: Context, h: History, now: int)
    requires ValidPolicy(policy) && rule in policy.rules && RuleMode(policy, rule) == Enforce && AllRespected(policy, h)
    requires now >= 0 && forall j :: 0 <= j < |h| ==> h[j].ts <= now
    ensures ValidRule(policy, rule)
    ensures Broken(policy, rule, context, now, h, true, true) == Broken(policy, rule, context, now, h, false, true)
  {
    hide StaticBroken, IdentityViolations, RequestExceeded, TokenExceeded, DollarObjects, SlotsExceeded, AllRespected;
    assert ValidRule(policy, rule);
    forall i | 0 <= i < |rule.limits.requests| { RequestsExact(policy, rule, i, h, now); }
    forall i | 0 <= i < |rule.limits.tokens| { TokensExact(policy, rule, i, context, h, now); }
    forall i | 0 <= i < |rule.limits.dollars| { DollarsExact(policy, rule, i, context, h, now); }
  }

  /** Counting exactly or with saturating int64s, the same requests are denied. */
  lemma DenialExact(policy: Policy, sample: Sample, h: History)
    requires ValidPolicy(policy) && AllRespected(policy, h) && sample.admissionKnown
    requires sample.ts >= 0 && forall j :: 0 <= j < |h| ==> h[j].ts <= sample.ts
    ensures Decide(policy, sample.context, sample.ts, h, false).denied <==> SomeBroken(policy, Enforce, sample, h)
  {
    hide Broken, Decide, Applies, AllRespected, ValidRule;
    DeniedIffBroken(policy, sample.context, sample.ts, h, false);
    forall rule | rule in policy.rules && RuleMode(policy, rule) == Enforce
      ensures ValidRule(policy, rule)
      ensures Broken(policy, rule, sample.context, sample.ts, h, true, true) == Broken(policy, rule, sample.context, sample.ts, h, false, true)
    {
      BrokenExact(policy, rule, sample.context, h, sample.ts);
    }
  }

  // ----- the refinement -----

  /** Samples the live engine could have been asked about, in the order the replay takes them. */
  predicate Replayable(samples: seq<Sample>) {
    (forall i :: 0 <= i < |samples| ==>
       samples[i].ts >= 0 && samples[i].admissionKnown && !BadEstimate(samples[i].context) && !Unrepresentable(samples[i].context))
    && forall i, j :: 0 <= i < j < |samples| ==> samples[i].ts <= samples[j].ts
  }

  function Blocked(outcomes: seq<Outcome>): (r: seq<bool>)
    ensures |r| == |outcomes|
    ensures forall i :: 0 <= i < |outcomes| ==> r[i] == (outcomes[i] == Block)
  {
    seq(|outcomes|, i requires 0 <= i < |outcomes| => outcomes[i] == Block)
  }

  ghost predicate Agree(live: State, exact: State) {
    live.history == exact.history && live.ends == exact.ends && |live.outcomes| == |exact.outcomes|
    && forall i :: 0 <= i < |live.outcomes| ==> (live.outcomes[i] == Block <==> exact.outcomes[i] == Block)
  }

  lemma StepsAgree(policy: Policy, live: State, exact: State, sample: Sample, before: int)
    requires ValidPolicy(policy) && Agree(live, exact) && Sound(live, before) && AllRespected(policy, live.history)
    requires 0 <= sample.ts && before <= sample.ts && sample.admissionKnown
    requires !BadEstimate(sample.context) && !Unrepresentable(sample.context)
    ensures Agree(LiveStep(policy, live, sample), ExactStep(policy, exact, sample))
    ensures Sound(LiveStep(policy, live, sample), sample.ts)
    ensures AllRespected(policy, LiveStep(policy, live, sample).history)
  {
    hide Decide, SomeBroken, AllRespected, NewEntry, ValidPolicy, BadEstimate, Unrepresentable, WellFormed;
    var open := ReleaseEnded(live.history, live.ends, sample.ts, |live.ends|);
    ReleaseEndedEffect(live.history, live.ends, sample.ts, |live.ends|);
    ReleaseEndedSafe(policy, live.history, live.ends, sample.ts, |live.ends|);
    DenialExact(policy, sample, open);
    var ask := Prepare(sample.ts, sample.context, Some(policy), true);
    SafeStep(policy, open, ask);
    if Admits(policy, sample.context, sample.ts, open) {
      var e := NewEntry(policy, sample.context, sample.ts);
      EntryAsPrepared(policy, sample.context, sample.ts);
      SafeStep(policy, open + [e], Commit(|open|, true));
      assert Next(open + [e], Commit(|open|, true)) == open + [e.(status := Committed)];
    }
  }

  lemma EntryAsPrepared(policy: Policy, context: Context, now: int)
    ensures NewEntry(policy, context, now).status == Prepared && NewEntry(policy, context, now).ts == now
  {
  }

  /** The simulator's decisions are the live engine's: over any validated policy and any samples
      the engine would accept for judgement, taken in time order, a sample is blocked by the exact
      replay exactly when the engine denies it, and the two end in the same state. */
  lemma {:induction false} ReplayRefinesEngine(policy: Policy, samples: seq<Sample>)
    requires ValidPolicy(policy) && Replayable(samples)
    ensures Agree(LiveReplay(policy, samples), ExactReplay(policy, samples))
    ensures Sound(LiveReplay(policy, samples), if samples == [] then 0 else samples[|samples| - 1].ts)
    ensures AllRespected(policy, LiveReplay(policy, samples).history)
  {
    hide LiveStep, ExactStep, Agree, Sound, AllRespected, ValidPolicy, BadEstimate, Unrepresentable;
    if samples == [] {
      NothingReplayed(policy);
    } else {
      var n := |samples| - 1;
      ReplayRefinesEngine(policy, samples[..n]);
      StepsAgree(policy, LiveReplay(policy, samples[..n]), ExactReplay(policy, samples[..n]), samples[n],
                 if n == 0 then 0 else samples[n - 1].ts);
    }
  }

  lemma NothingReplayed(policy: Policy)
    requires ValidPolicy(policy)
    ensures Agree(State([], [], []), State([], [], [])) && Sound(State([], [], []), 0) && AllRespected(policy, [])
  {
    forall cap | Enforced(policy, cap) ensures Respected(policy, cap, []) {
      EmptyRespects(policy, cap);
    }
  }
}
