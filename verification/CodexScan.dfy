/** One scan of all rollouts: which are counted, from which record on, and what they add up to. */
module CodexScan {
  import opened Common
  import opened CodexTypes
  import opened CodexLineage
  import opened CodexDeltas
  import PrefixMatch

  datatype Plan = Plan(canonical: map<string, nat>, ambiguous: set<string>, invalid: set<string>)

  datatype Decision = Omitted | Counted(skip: nat)

  function ForestOf(rollouts: seq<Rollout>, canonical: map<string, nat>): Forest
    requires forall id :: id in canonical ==> canonical[id] < |rollouts|
  {
    map id | id in canonical :: rollouts[canonical[id]]
  }

  ghost predicate PlanFor(rollouts: seq<Rollout>, plan: Plan) {
    Canonical(rollouts, |rollouts|, plan.canonical)
    && (forall id :: id in plan.ambiguous <==>
          exists i :: 0 <= i < |rollouts| && rollouts[i].sessionID == id && Conflicts(rollouts, plan.canonical, i))
    && (forall id :: id in plan.invalid <==> id in plan.canonical && ReachesCycle(ForestOf(rollouts, plan.canonical), id))
  }

  /** The parent's records from before the fork. */
  function Before(usage: seq<Record>, startedAt: int): (r: seq<Record>)
    ensures r <= usage
    ensures forall i :: 0 <= i < |r| ==> usage[i].time.Some? && usage[i].time.value < startedAt
    ensures |r| < |usage| ==> usage[|r|].time.None? || usage[|r|].time.value >= startedAt
  {
    if usage == [] || usage[0].time.None? || usage[0].time.value >= startedAt then []
    else [usage[0]] + Before(usage[1..], startedAt)
  }

  method TrimParent(usage: seq<Record>, startedAt: int) returns (trimmed: seq<Record>)
    ensures trimmed == Before(usage, startedAt)
  {
    trimmed := usage;
    for i := 0 to |usage|
      invariant trimmed == usage
      invariant forall j :: 0 <= j < i ==> usage[j].time.Some? && usage[j].time.value < startedAt
    {
      if usage[i].time.None? || usage[i].time.value >= startedAt {
        trimmed := usage[..i];
        OnePrefix(usage, trimmed, Before(usage, startedAt), startedAt);
        return;
      }
    }
    OnePrefix(usage, trimmed, Before(usage, startedAt), startedAt);
  }

  lemma OnePrefix(usage: seq<Record>, a: seq<Record>, b: seq<Record>, startedAt: int)
    requires a <= usage && b <= usage
    requires forall r :: r == a || r == b ==> (forall i :: 0 <= i < |r| ==> usage[i].time.Some? && usage[i].time.value < startedAt)
    requires forall r :: (r == a || r == b) && |r| < |usage| ==> usage[|r|].time.None? || usage[|r|].time.value >= startedAt
    ensures a == b
  {
    assert |a| == |b|;
  }

  /** Nothing speaks against counting the rollout itself. */
  predicate Eligible(rollouts: seq<Rollout>, plan: Plan, i: nat)
    requires i < |rollouts|
  {
    var r := rollouts[i];
    (r.usage == [] || r.metadataValid) && r.sessionID !in plan.ambiguous && r.sessionID !in plan.invalid
    && (r.sessionID != "" ==> r.sessionID in plan.canonical && plan.canonical[r.sessionID] == i)
  }

  predicate ParentUsable(rollouts: seq<Rollout>, plan: Plan, r: Rollout)
    requires forall id :: id in plan.canonical ==> plan.canonical[id] < |rollouts|
  {
    r.parentID != "" && r.parentID in plan.canonical
    && rollouts[plan.canonical[r.parentID]].metadataValid && rollouts[plan.canonical[r.parentID]].complete
    && r.parentID !in plan.ambiguous && r.parentID !in plan.invalid && r.startedAt.Some?
    && (r.usage == [] || rollouts[plan.canonical[r.parentID]].usage != [])
  }

  function History(rollouts: seq<Rollout>, plan: Plan, r: Rollout): seq<Record>
    requires (forall id :: id in plan.canonical ==> plan.canonical[id] < |rollouts|) && ParentUsable(rollouts, plan, r)
  {
    Before(rollouts[plan.canonical[r.parentID]].usage, r.startedAt.value)
  }

  /** A rollout is counted past the longest prefix that ends its parent's history; one that matches
      nothing of a parent that has a history is not counted. */
  ghost predicate Decided(rollouts: seq<Rollout>, plan: Plan, i: nat, d: Decision)
    requires i < |rollouts| && forall id :: id in plan.canonical ==> plan.canonical[id] < |rollouts|
  {
    var r := rollouts[i];
    if !Eligible(rollouts, plan, i) then d.Omitted?
    else if !r.fork then d == Counted(0)
    else if !ParentUsable(rollouts, plan, r) then d.Omitted?
    else
      var history := History(rollouts, plan, r);
      exists skip: nat :: PrefixMatch.LongestOf(TotalsOf(r.usage), TotalsOf(history), skip)
                          && d == if r.usage != [] && history != [] && skip == 0 then Omitted else Counted(skip)
  }

  method Decide(rollouts: seq<Rollout>, plan: Plan, i: nat) returns (d: Decision)
    requires i < |rollouts| && forall id :: id in plan.canonical ==> plan.canonical[id] < |rollouts|
    ensures Decided(rollouts, plan, i, d)
    ensures d.Counted? ==> d.skip <= |rollouts[i].usage|
  {
    hide PrefixMatch.LongestOf;
    var r := rollouts[i];
    if !Eligible(rollouts, plan, i) {
      return Omitted;
    }
    var skip := 0;
    if r.fork {
      if !ParentUsable(rollouts, plan, r) {
        return Omitted;
      }
      var history := TrimParent(rollouts[plan.canonical[r.parentID]].usage, r.startedAt.value);
      skip := PrefixMatch.PrefixAtParentEnd(TotalsOf(r.usage), TotalsOf(history));
      SkipInRange(TotalsOf(r.usage), TotalsOf(history), skip);
      assert PrefixMatch.LongestOf(TotalsOf(r.usage), TotalsOf(History(rollouts, plan, r)), skip);
      if r.usage != [] && history != [] && skip == 0 {
        return Omitted;
      }
    }
    return Counted(skip);
  }

  lemma SkipInRange(child: seq<Totals>, parent: seq<Totals>, skip: nat)
    requires PrefixMatch.LongestOf(child, parent, skip)
    ensures skip <= |child| && skip <= |parent| && child[..skip] == parent[|parent| - skip..]
  {
  }

  /** Events of the first `n` rollouts. */
  function AllEvents(rollouts: seq<Rollout>, decisions: seq<Decision>, n: nat, since: int): seq<Event>
    requires n <= |rollouts| == |decisions|
  {
    if n == 0 then []
    else AllEvents(rollouts, decisions, n - 1, since)
         + (if decisions[n - 1].Counted? then Events(rollouts[n - 1].usage, |rollouts[n - 1].usage|, decisions[n - 1].skip, since) else [])
  }

  ghost predicate DecisionsFor(rollouts: seq<Rollout>, plan: Plan, decisions: seq<Decision>)
    requires forall id :: id in plan.canonical ==> plan.canonical[id] < |rollouts|
  {
    |decisions| == |rollouts|
    && forall i :: 0 <= i < |rollouts| ==>
         Decided(rollouts, plan, i, decisions[i]) && (decisions[i].Counted? ==> decisions[i].skip <= |rollouts[i].usage|)
  }

  /** A record of a counted rollout that an event tells of. */
  ghost predicate ToldOf(rollouts: seq<Rollout>, decisions: seq<Decision>, since: int, at: (nat, nat)) {
    at.0 < |rollouts| && at.0 < |decisions| && decisions[at.0].Counted? && at.1 < |rollouts[at.0].usage|
    && Told(rollouts[at.0].usage, decisions[at.0].skip, since, at.1)
  }

  predicate Sooner(a: (nat, nat), b: (nat, nat)) { a.0 < b.0 || (a.0 == b.0 && a.1 < b.1) }

  /** The k-th event is that of the k-th record to be told, rollout by rollout. */
  ghost predicate ScanTraced(rollouts: seq<Rollout>, decisions: seq<Decision>, n: nat, since: int, events: seq<Event>, told: seq<(nat, nat)>) {
    |told| == |events|
    && (forall k :: 0 <= k < |told| ==> told[k].0 < n && ToldOf(rollouts, decisions, since, told[k])
                                        && Tells(rollouts[told[k].0].usage, told[k].1, events[k]))
    && (forall k, l :: 0 <= k < l < |told| ==> Sooner(told[k], told[l]))
    && forall at: (nat, nat) :: at.0 < n && ToldOf(rollouts, decisions, since, at) ==> at in told
  }

  ghost function Placed(n: nat, own: seq<nat>): (r: seq<(nat, nat)>)
    ensures |r| == |own| && forall k :: 0 <= k < |own| ==> r[k] == (n, own[k])
  {
    seq(|own|, k requires 0 <= k < |own| => (n, own[k]))
  }

  ghost predicate PartTraced(rollouts: seq<Rollout>, decisions: seq<Decision>, n: nat, since: int, part: seq<Event>, own: seq<nat>)
    requires n < |rollouts| == |decisions|
  {
    if decisions[n].Counted? then Traced(rollouts[n].usage, |rollouts[n].usage|, decisions[n].skip, since, part, own)
    else part == [] && own == []
  }

  lemma PartOf(rollouts: seq<Rollout>, decisions: seq<Decision>, n: nat, since: int, part: seq<Event>, own: seq<nat>)
    requires n < |rollouts| == |decisions| && PartTraced(rollouts, decisions, n, since, part, own)
    ensures |own| == |part|
    ensures forall k :: 0 <= k < |own| ==> ToldOf(rollouts, decisions, since, (n, own[k])) && Tells(rollouts[n].usage, own[k], part[k])
    ensures forall k, l :: 0 <= k < l < |own| ==> own[k] < own[l]
    ensures forall i: nat :: ToldOf(rollouts, decisions, since, (n, i)) ==> i in own
  {
    hide Told, Tells;
  }

  lemma ScanTracedStep(rollouts: seq<Rollout>, decisions: seq<Decision>, n: nat, since: int, events: seq<Event>, told: seq<(nat, nat)>,
                       part: seq<Event>, own: seq<nat>)
    requires n < |rollouts| == |decisions| && ScanTraced(rollouts, decisions, n, since, events, told)
    requires PartTraced(rollouts, decisions, n, since, part, own)
    ensures ScanTraced(rollouts, decisions, n + 1, since, events + part, told + Placed(n, own))
  {
    PartOf(rollouts, decisions, n, since, part, own);
    hide Tells, PartTraced, ToldOf, Placed;
    var last, all, everything := Placed(n, own), told + Placed(n, own), events + part;
    forall k | 0 <= k < |all|
      ensures all[k].0 < n + 1 && ToldOf(rollouts, decisions, since, all[k])
      ensures all[k].1 < |rollouts[all[k].0].usage| && Tells(rollouts[all[k].0].usage, all[k].1, everything[k])
    {
      if k < |told| {
        TellsOf(rollouts, decisions, since, told[k]);
      } else {
        TellsOf(rollouts, decisions, since, last[k - |told|]);
      }
    }
    forall k, l | 0 <= k < l < |all| ensures Sooner(all[k], all[l]) {
      if l >= |told| && k >= |told| {
        assert own[k - |told|] < own[l - |told|];
      }
    }
    forall at: (nat, nat) | at.0 < n + 1 && ToldOf(rollouts, decisions, since, at) ensures at in all {
      if at.0 == n {
        assert at == (n, at.1);
        var k :| 0 <= k < |own| && own[k] == at.1;
        assert all[|told| + k] == at;
      } else {
        assert at in told;
      }
    }
  }

  lemma TellsOf(rollouts: seq<Rollout>, decisions: seq<Decision>, since: int, at: (nat, nat))
    requires ToldOf(rollouts, decisions, since, at)
    ensures at.0 < |rollouts| && at.1 < |rollouts[at.0].usage|
  {
    hide Told;
  }

  lemma {:induction false} ScanTrace(rollouts: seq<Rollout>, decisions: seq<Decision>, n: nat, since: int) returns (told: seq<(nat, nat)>)
    requires n <= |rollouts| == |decisions|
    ensures ScanTraced(rollouts, decisions, n, since, AllEvents(rollouts, decisions, n, since), told)
  {
    hide Told, Tells, Events, Traced, ScanTraced;
    if n == 0 {
      NothingScanned(rollouts, decisions, since);
      told := [];
    } else {
      told := ScanTrace(rollouts, decisions, n - 1, since);
      var own: seq<nat> := [];
      var part: seq<Event> := [];
      if decisions[n - 1].Counted? {
        part := Events(rollouts[n - 1].usage, |rollouts[n - 1].usage|, decisions[n - 1].skip, since);
        own := EventsTraced(rollouts[n - 1].usage, |rollouts[n - 1].usage|, decisions[n - 1].skip, since);
      }
      ScanTracedStep(rollouts, decisions, n - 1, since, AllEvents(rollouts, decisions, n - 1, since), told, part, own);
      told := told + Placed(n - 1, own);
    }
  }

  lemma NothingScanned(rollouts: seq<Rollout>, decisions: seq<Decision>, since: int)
    ensures ScanTraced(rollouts, decisions, 0, since, [], [])
  {
  }

  method Scan(rollouts: seq<Rollout>, since: int) returns (events: seq<Event>, decisions: seq<Decision>, plan: Plan)
    ensures PlanFor(rollouts, plan) && DecisionsFor(rollouts, plan, decisions)
    ensures events == AllEvents(rollouts, decisions, |rollouts|, since)
    ensures exists told: seq<(nat, nat)> :: ScanTraced(rollouts, decisions, |rollouts|, since, events, told)
  {
    hide Decided, Events, ReachesCycle, Conflicts, ScanTraced, Traced;
    var canonical := CanonicalRollouts(rollouts);
    var ambiguous := AmbiguousSessions(rollouts, canonical);
    var invalid := InvalidLineages(ForestOf(rollouts, canonical));
    plan := Plan(canonical, ambiguous, invalid);
    events, decisions := [], [];
    for i := 0 to |rollouts|
      invariant |decisions| == i
      invariant forall j :: 0 <= j < i ==>
                  Decided(rollouts, plan, j, decisions[j]) && (decisions[j].Counted? ==> decisions[j].skip <= |rollouts[j].usage|)
      invariant events == AllEvents(rollouts[..i], decisions, i, since)
    {
      var d := Decide(rollouts, plan, i);
      var emitted := [];
      if d.Counted? {
        emitted := EmitDeltas(rollouts[i].usage, d.skip, since);
      }
      EventsStep(rollouts, decisions, d, i, since);
      events := events + emitted;
      decisions := decisions + [d];
    }
    assert rollouts[..|rollouts|] == rollouts;
    ghost var told := ScanTrace(rollouts, decisions, |rollouts|, since);
  }

  lemma {:induction false} EventsPrefix(rollouts: seq<Rollout>, decisions: seq<Decision>, more: seq<Rollout>, others: seq<Decision>, n: nat, since: int)
    requires n <= |rollouts| == |decisions| && |more| == |others|
    requires rollouts <= more && decisions <= others
    ensures AllEvents(more, others, n, since) == AllEvents(rollouts, decisions, n, since)
  {
    if n > 0 {
      EventsPrefix(rollouts, decisions, more, others, n - 1, since);
    }
  }

  lemma EventsStep(rollouts: seq<Rollout>, decisions: seq<Decision>, d: Decision, i: nat, since: int)
    requires i < |rollouts| && |decisions| == i
    ensures AllEvents(rollouts[..i + 1], decisions + [d], i + 1, since)
            == AllEvents(rollouts[..i], decisions, i, since)
               + (if d.Counted? then Events(rollouts[i].usage, |rollouts[i].usage|, d.skip, since) else [])
  {
    EventsPrefix(rollouts[..i], decisions, rollouts[..i + 1], decisions + [d], i, since);
  }

  // ----- what a scan adds up to -----

  function Live(r: Rollout, d: Decision): Totals
    requires d.Counted? ==> d.skip <= |r.usage|
  {
    if d.Omitted? then ZERO else Minus(Used(TotalsOf(r.usage)), Used(TotalsOf(r.usage)[..d.skip]))
  }

  function LiveSum(rollouts: seq<Rollout>, decisions: seq<Decision>, n: nat): Totals
    requires n <= |rollouts| == |decisions|
    requires forall i :: 0 <= i < |rollouts| && decisions[i].Counted? ==> decisions[i].skip <= |rollouts[i].usage|
  {
    if n == 0 then ZERO else Plus(LiveSum(rollouts, decisions, n - 1), Live(rollouts[n - 1], decisions[n - 1]))
  }

  lemma {:induction false} SumConcat(a: seq<Event>, b: seq<Event>)
    ensures OutputOf(a + b) == OutputOf(a) + OutputOf(b) && InputOf(a + b) == InputOf(a) + InputOf(b)
    ensures FreshOf(a + b) == FreshOf(a) + FreshOf(b) && CachedOf(a + b) == CachedOf(a) + CachedOf(b)
  {
    if b == [] {
      assert a + b == a;
    } else {
      SumConcat(a, b[..|b| - 1]);
      assert (a + b)[..|a + b| - 1] == a + b[..|b| - 1];
    }
  }

  ghost predicate Overstated(r: Rollout, d: Decision, since: int) {
    d.Counted? && exists k :: 0 <= k < |r.usage| && Overcached(r.usage, d.skip, since, k)
  }

  /** A live record of the rollout shows a cached rise beyond its input. */
  ghost predicate Exceeds(r: Rollout, d: Decision) {
    d.Counted? && exists k :: 0 <= k < |r.usage| && Excess(r.usage, d.skip, k)
  }

  ghost predicate Alone(r: Rollout, d: Decision) {
    d.Counted? && exists k :: 0 <= k < |r.usage| && CachedAlone(r.usage, d.skip, k)
  }

  /** Conservation over the scan, cached and fresh apart: cached tokens are exactly the live cached
      ones when none came alone, and fresh tokens exactly the rest of the live input when no cached
      rise went beyond its input. */
  lemma {:induction false} ScanSplits(rollouts: seq<Rollout>, decisions: seq<Decision>, n: nat, since: int)
    requires n <= |rollouts| == |decisions|
    requires forall i :: 0 <= i < |rollouts| && decisions[i].Counted? ==> decisions[i].skip <= |rollouts[i].usage|
    requires forall i :: 0 <= i < |rollouts| ==> NonNegative(rollouts[i].usage) && AllSince(rollouts[i].usage, since)
    ensures var events, live := AllEvents(rollouts, decisions, n, since), LiveSum(rollouts, decisions, n);
            CachedOf(events) <= live.cached && FreshOf(events) >= live.input - live.cached
            && (CachedOf(events) == live.cached <==> forall i :: 0 <= i < n ==> !Alone(rollouts[i], decisions[i]))
            && (FreshOf(events) == live.input - live.cached <==> forall i :: 0 <= i < n ==> !Exceeds(rollouts[i], decisions[i]))
  {
    hide NonNegative, AllSince, Used, Events, FreshOf, CachedOf, Excess, CachedAlone;
    if n > 0 {
      ScanSplits(rollouts, decisions, n - 1, since);
      var r, d := rollouts[n - 1], decisions[n - 1];
      var front := AllEvents(rollouts, decisions, n - 1, since);
      if d.Counted? {
        PartsConserved(r.usage, d.skip, since);
        SumConcat(front, Events(r.usage, |r.usage|, d.skip, since));
      } else {
        assert front + [] == front;
      }
      assert (forall i :: 0 <= i < n ==> !Alone(rollouts[i], decisions[i]))
          <==> (forall i :: 0 <= i < n - 1 ==> !Alone(rollouts[i], decisions[i])) && !Alone(r, d);
      assert (forall i :: 0 <= i < n ==> !Exceeds(rollouts[i], decisions[i]))
          <==> (forall i :: 0 <= i < n - 1 ==> !Exceeds(rollouts[i], decisions[i])) && !Exceeds(r, d);
    } else {
      NoParts();
    }
  }

  /** Conservation over the scan: emitted output is exactly the live output of the counted rollouts,
      and input matches too exactly when no counted delta claims more cached than input; cached and
      fresh tokens apart likewise. */
  lemma {:induction false} ScanConserves(rollouts: seq<Rollout>, decisions: seq<Decision>, n: nat, since: int)
    requires n <= |rollouts| == |decisions|
    requires forall i :: 0 <= i < |rollouts| && decisions[i].Counted? ==> decisions[i].skip <= |rollouts[i].usage|
    requires forall i :: 0 <= i < |rollouts| ==> NonNegative(rollouts[i].usage) && AllSince(rollouts[i].usage, since)
    ensures var events, live := AllEvents(rollouts, decisions, n, since), LiveSum(rollouts, decisions, n);
            OutputOf(events) == live.output && InputOf(events) >= live.input
            && (InputOf(events) == live.input <==> forall i :: 0 <= i < n ==> !Overstated(rollouts[i], decisions[i], since))
    ensures var events, live := AllEvents(rollouts, decisions, n, since), LiveSum(rollouts, decisions, n);
            (CachedOf(events) == live.cached <==> forall i :: 0 <= i < n ==> !Alone(rollouts[i], decisions[i]))
            && (FreshOf(events) == live.input - live.cached <==> forall i :: 0 <= i < n ==> !Exceeds(rollouts[i], decisions[i]))
  {
    hide NonNegative, AllSince, Used, Events, OutputOf, InputOf, Overcached, CachedOf, FreshOf, Alone, Exceeds;
    ScanSplits(rollouts, decisions, n, since);
    if n > 0 {
      ScanConserves(rollouts, decisions, n - 1, since);
      var r, d := rollouts[n - 1], decisions[n - 1];
      var front := AllEvents(rollouts, decisions, n - 1, since);
      if d.Counted? {
        Conservation(r.usage, d.skip, since);
        SumConcat(front, Events(r.usage, |r.usage|, d.skip, since));
      } else {
        assert front + [] == front;
      }
      assert (forall i :: 0 <= i < n ==> !Overstated(rollouts[i], decisions[i], since))
          <==> (forall i :: 0 <= i < n - 1 ==> !Overstated(rollouts[i], decisions[i], since)) && !Overstated(r, d, since);
    } else {
      NoEvents();
    }
  }

  lemma NoEvents()
    ensures OutputOf([]) == 0 && InputOf([]) == 0
  {
  }

  /** Copies of a session disagree: a complete one is a different fork from the complete canonical
      one, or has a record the canonical one does not have in its place. */
  ghost predicate CopiesDisagree(rollouts: seq<Rollout>, canonical: map<string, nat>, id: string) {
    id != "" && id in canonical && canonical[id] < |rollouts|
    && var best := rollouts[canonical[id]];
       best.metadataValid && best.complete
       && exists j :: 0 <= j < |rollouts| && j != canonical[id] && rollouts[j].sessionID == id
                      && rollouts[j].metadataValid && rollouts[j].complete
                      && (rollouts[j].fork != best.fork || rollouts[j].parentID != best.parentID || rollouts[j].startedAt != best.startedAt
                          || |rollouts[j].usage| > |best.usage| || exists k :: 0 <= k < |rollouts[j].usage| && rollouts[j].usage[k] != best.usage[k])
  }

  /** A session that can be relied on: its copies agree and its forks do not go in circles. */
  ghost predicate Reliable(rollouts: seq<Rollout>, canonical: map<string, nat>, id: string)
    requires forall i :: i in canonical ==> canonical[i] < |rollouts|
  {
    !CopiesDisagree(rollouts, canonical, id) && !(id in canonical && ReachesCycle(ForestOf(rollouts, canonical), id))
  }

  /** The parent's record of a fork is whole, and shows what the fork began with. */
  ghost predicate ParentKnown(rollouts: seq<Rollout>, canonical: map<string, nat>, r: Rollout)
    requires forall i :: i in canonical ==> canonical[i] < |rollouts|
  {
    r.parentID != "" && r.parentID in canonical && Reliable(rollouts, canonical, r.parentID) && r.startedAt.Some?
    && var parent := rollouts[canonical[r.parentID]];
       parent.metadataValid && parent.complete && (r.usage != [] ==> parent.usage != [])
       && var child, history := TotalsOf(r.usage), TotalsOf(Before(parent.usage, r.startedAt.value));
          child == [] || history == [] || exists n :: 0 < n <= |child| && n <= |history| && child[..n] == history[|history| - n..]
  }

  lemma DisagreeingCopies(rollouts: seq<Rollout>, plan: Plan, id: string)
    requires PlanFor(rollouts, plan)
    ensures id in plan.ambiguous <==> CopiesDisagree(rollouts, plan.canonical, id)
  {
    hide ReachesCycle;
    forall j | 0 <= j < |rollouts|
      ensures Conflicts(rollouts, plan.canonical, j) && rollouts[j].sessionID == id
              <==> id != "" && id in plan.canonical && j != plan.canonical[id] && rollouts[j].sessionID == id
                   && rollouts[j].metadataValid && rollouts[j].complete
                   && var best := rollouts[plan.canonical[id]];
                      best.metadataValid && best.complete
                      && (rollouts[j].fork != best.fork || rollouts[j].parentID != best.parentID || rollouts[j].startedAt != best.startedAt
                          || |rollouts[j].usage| > |best.usage| || exists k :: 0 <= k < |rollouts[j].usage| && rollouts[j].usage[k] != best.usage[k])
    {
      if rollouts[j].sessionID == id && id in plan.canonical {
        PrefixExactly(rollouts[plan.canonical[id]].usage, rollouts[j].usage);
      }
    }
  }

  lemma PrefixExactly(usage: seq<Record>, prefix: seq<Record>)
    ensures StartsWith(usage, prefix) <==> |prefix| <= |usage| && forall k :: 0 <= k < |prefix| ==> prefix[k] == usage[k]
  {
  }

  /** A rollout is counted exactly when it has valid metadata or nothing to count, stands for its
      session, the session can be relied on, and, if it is a fork, so can what it began with. */
  lemma CountedExactly(rollouts: seq<Rollout>, plan: Plan, decisions: seq<Decision>, i: nat)
    requires PlanFor(rollouts, plan) && DecisionsFor(rollouts, plan, decisions) && i < |rollouts|
    ensures forall id :: id in plan.canonical ==> plan.canonical[id] < |rollouts|
    ensures var r := rollouts[i];
            decisions[i].Counted?
            <==> (r.usage == [] || r.metadataValid) && (r.sessionID != "" ==> r.sessionID in plan.canonical && plan.canonical[r.sessionID] == i)
                 && Reliable(rollouts, plan.canonical, r.sessionID) && (r.fork ==> ParentKnown(rollouts, plan.canonical, r))
  {
    hide ReachesCycle, PlanFor, CopiesDisagree, PrefixMatch.LongestOf, Conflicts;
    var r := rollouts[i];
    CyclesInvalid(rollouts, plan, r.sessionID);
    assert Decided(rollouts, plan, i, decisions[i]);
    DisagreeingCopies(rollouts, plan, r.sessionID);
    DisagreeingCopies(rollouts, plan, r.parentID);
    CyclesInvalid(rollouts, plan, r.parentID);
    if r.fork && ParentUsable(rollouts, plan, r) {
      var child, history := TotalsOf(r.usage), TotalsOf(History(rollouts, plan, r));
      forall skip: nat | PrefixMatch.LongestOf(child, history, skip)
        ensures skip > 0 <==> exists n :: 0 < n <= |child| && n <= |history| && child[..n] == history[|history| - n..]
      {
        LongestIsSome(child, history, skip);
      }
    }
  }

  lemma LongestIsSome(child: seq<Totals>, parent: seq<Totals>, skip: nat)
    requires PrefixMatch.LongestOf(child, parent, skip)
    ensures skip > 0 <==> exists n :: 0 < n <= |child| && n <= |parent| && child[..n] == parent[|parent| - n..]
  {
    SkipInRange(child, parent, skip);
    forall n | 0 < n <= |child| && n <= |parent| && child[..n] == parent[|parent| - n..] ensures skip > 0 {
      assert PrefixMatch.Ends(child, parent, n);
    }
  }

  lemma CyclesInvalid(rollouts: seq<Rollout>, plan: Plan, id: string)
    requires PlanFor(rollouts, plan)
    ensures forall k :: k in plan.canonical ==> plan.canonical[k] < |rollouts|
    ensures id in plan.invalid <==> id in plan.canonical && ReachesCycle(ForestOf(rollouts, plan.canonical), id)
  {
    hide ReachesCycle, Conflicts;
  }

  /** A named session is counted at most once, however many copies of it there are. */
  lemma CountedOnce(rollouts: seq<Rollout>, plan: Plan, decisions: seq<Decision>, i: nat, j: nat)
    requires PlanFor(rollouts, plan) && DecisionsFor(rollouts, plan, decisions)
    requires i < j < |rollouts| && decisions[i].Counted? && decisions[j].Counted?
    requires rollouts[i].sessionID == rollouts[j].sessionID
    ensures rollouts[i].sessionID == ""
  {
    assert Decided(rollouts, plan, i, decisions[i]) && Decided(rollouts, plan, j, decisions[j]);
  }

  /** What a counted fork leaves out is usage at the end of its parent's own history before the
      fork, counter for counter; no cycle of forks is ever counted. */
  lemma InheritedIsParents(rollouts: seq<Rollout>, plan: Plan, decisions: seq<Decision>, i: nat)
    requires PlanFor(rollouts, plan) && DecisionsFor(rollouts, plan, decisions)
    requires i < |rollouts| && decisions[i].Counted? && rollouts[i].fork
    ensures ParentUsable(rollouts, plan, rollouts[i])
    ensures var child, history := TotalsOf(rollouts[i].usage), TotalsOf(History(rollouts, plan, rollouts[i]));
            var skip := decisions[i].skip;
            skip <= |history| && child[..skip] == history[|history| - skip..]
            && Used(child[..skip]) == Used(history[|history| - skip..])
            && (child != [] && history != [] ==> skip > 0)
    ensures !ReachesCycle(ForestOf(rollouts, plan.canonical), rollouts[i].parentID)
  {
    hide PrefixMatch.LongestOf, Used, ReachesCycle;
    assert Decided(rollouts, plan, i, decisions[i]);
    SkipInRange(TotalsOf(rollouts[i].usage), TotalsOf(History(rollouts, plan, rollouts[i])), decisions[i].skip);
  }
}
