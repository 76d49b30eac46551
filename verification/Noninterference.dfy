/** Labels nobody authenticated cannot change whether a request passes, the status it is refused
    with, or what enforcing rules count, at any step of any run. */
module Noninterference {
  import opened Common
  import opened PolicyTypes
  import opened Admission
  import opened Sorting
  import Wildcard
  import opened PolicyEngine

  // ----- explanation order is a strict weak order -----

  lemma {:induction false} PrecedesIrreflexive(a: string)
    ensures !Precedes(a, a)
  {
    if a != [] { PrecedesIrreflexive(a[1..]); }
  }

  lemma {:induction false} PrecedesTransitive(a: string, b: string, c: string)
    requires Precedes(a, b) && Precedes(b, c)
    ensures Precedes(a, c)
  {
    if a != [] && a[0] == b[0] && b[0] == c[0] {
      PrecedesTransitive(a[1..], b[1..], c[1..]);
    }
  }

  lemma {:induction false} PrecedesNegativelyTransitive(a: string, b: string, c: string)
    requires !Precedes(a, b) && !Precedes(b, c)
    ensures !Precedes(a, c)
  {
    if c != [] && a != [] && b != [] && a[0] == b[0] && b[0] == c[0] {
      PrecedesNegativelyTransitive(a[1..], b[1..], c[1..]);
    }
  }

  lemma NarrowerFirstIsOrder()
    ensures StrictWeakOrder(NarrowerFirst)
  {
    hide Specificity;
    forall a: Rule ensures !NarrowerFirst(a, a) {
      PrecedesIrreflexive(a.id);
    }
    forall a: Rule, b: Rule, c: Rule | NarrowerFirst(a, b) && NarrowerFirst(b, c) ensures NarrowerFirst(a, c) {
      if Specificity(a) == Specificity(b) == Specificity(c) {
        PrecedesTransitive(a.id, b.id, c.id);
      }
    }
    forall a: Rule, b: Rule, c: Rule | !NarrowerFirst(a, b) && !NarrowerFirst(b, c) ensures !NarrowerFirst(a, c) {
      if Specificity(a) == Specificity(b) == Specificity(c) {
        PrecedesNegativelyTransitive(a.id, b.id, c.id);
      }
    }
  }

  // ----- sorting commutes with keeping only some rules -----

  function Enforcing(policy: Policy, rules: seq<Rule>): (r: seq<Rule>)
    ensures forall x :: x in r ==> x in rules
  {
    if rules == [] then []
    else
      var n := |rules| - 1;
      Enforcing(policy, rules[..n]) + (if RuleMode(policy, rules[n]) == Enforce then [rules[n]] else [])
  }

  lemma EnforcingAppend(policy: Policy, rules: seq<Rule>, rule: Rule)
    ensures Enforcing(policy, rules + [rule])
            == Enforcing(policy, rules) + (if RuleMode(policy, rule) == Enforce then [rule] else [])
  {
    assert (rules + [rule])[..|rules|] == rules;
  }

  lemma {:induction false} InsertAtEnd(s: seq<Rule>, x: Rule, less: (Rule, Rule) -> bool)
    requires forall i :: 0 <= i < |s| ==> !less(x, s[i])
    ensures Insert(s, x, less) == s + [x]
  {
  }

  lemma InsertPast(s: seq<Rule>, last: Rule, x: Rule, less: (Rule, Rule) -> bool)
    requires less(x, last)
    ensures Insert(s + [last], x, less) == Insert(s, x, less) + [last]
  {
    assert (s + [last])[..|s|] == s;
  }

  lemma AfterAll(s: seq<Rule>, x: Rule)
    requires Sorted(s, NarrowerFirst) && StrictWeakOrder(NarrowerFirst)
    requires s != [] ==> !NarrowerFirst(x, s[|s| - 1])
    ensures forall i :: 0 <= i < |s| ==> !NarrowerFirst(x, s[i])
  {
    hide NarrowerFirst;
    forall i | 0 <= i < |s| ensures !NarrowerFirst(x, s[i]) {
      assert i == |s| - 1 || !NarrowerFirst(s[|s| - 1], s[i]);
    }
  }

  lemma {:induction false} EnforcingInsert(policy: Policy, s: seq<Rule>, x: Rule)
    requires Sorted(s, NarrowerFirst) && StrictWeakOrder(NarrowerFirst)
    ensures Enforcing(policy, Insert(s, x, NarrowerFirst))
            == if RuleMode(policy, x) == Enforce then Insert(Enforcing(policy, s), x, NarrowerFirst) else Enforcing(policy, s)
  {
    hide NarrowerFirst, RuleMode, Insert, Enforcing, StrictWeakOrder;
    if s != [] && NarrowerFirst(x, s[|s| - 1]) {
      var front, last := s[..|s| - 1], s[|s| - 1];
      EnforcingInsert(policy, front, x);
      assert s == front + [last];
      InsertPast(front, last, x, NarrowerFirst);
      EnforcingAppend(policy, Insert(front, x, NarrowerFirst), last);
      EnforcingAppend(policy, front, last);
      InsertPast(Enforcing(policy, front), last, x, NarrowerFirst);
      assert forall r: seq<Rule> :: r + [] == r;
    } else {
      AfterAll(s, x);
      InsertAtEnd(s, x, NarrowerFirst);
      EnforcingAppend(policy, s, x);
      forall i | 0 <= i < |Enforcing(policy, s)| ensures !NarrowerFirst(x, Enforcing(policy, s)[i]) {
        assert Enforcing(policy, s)[i] in s;
      }
      InsertAtEnd(Enforcing(policy, s), x, NarrowerFirst);
    }
  }

  lemma SortAppend(front: seq<Rule>, last: Rule, less: (Rule, Rule) -> bool)
    ensures StableSort(front + [last], less) == Insert(StableSort(front, less), last, less)
  {
    assert (front + [last])[..|front|] == front;
  }

  lemma {:induction false} EnforcingSort(policy: Policy, s: seq<Rule>)
    requires StrictWeakOrder(NarrowerFirst)
    ensures Enforcing(policy, StableSort(s, NarrowerFirst)) == StableSort(Enforcing(policy, s), NarrowerFirst)
  {
    hide NarrowerFirst, StrictWeakOrder, RuleMode, Insert;
    if s != [] {
      var front, last := s[..|s| - 1], s[|s| - 1];
      EnforcingSort(policy, front);
      StableSortSorted(front, NarrowerFirst);
      EnforcingStep(policy, front, last);
      assert s == front + [last];
    }
  }

  lemma EnforcingStep(policy: Policy, front: seq<Rule>, last: Rule)
    requires StrictWeakOrder(NarrowerFirst) && Sorted(StableSort(front, NarrowerFirst), NarrowerFirst)
    requires Enforcing(policy, StableSort(front, NarrowerFirst)) == StableSort(Enforcing(policy, front), NarrowerFirst)
    ensures Enforcing(policy, StableSort(front + [last], NarrowerFirst))
            == StableSort(Enforcing(policy, front + [last]), NarrowerFirst)
  {
    hide NarrowerFirst, StrictWeakOrder, RuleMode, Insert, Enforcing, StableSort;
    SortAppend(front, last, NarrowerFirst);
    EnforcingInsert(policy, StableSort(front, NarrowerFirst), last);
    EnforcingAppend(policy, front, last);
    SortAppend(Enforcing(policy, front), last, NarrowerFirst);
    assert forall r: seq<Rule> :: r + [] == r;
  }

  // ----- contexts that differ only in labels nobody vouches for -----

  ghost predicate SameEstimates(a: Context, b: Context) {
    a.estimatedInput == b.estimatedInput && a.outputBound == b.outputBound && a.outputBoundPresent == b.outputBoundPresent
    && a.estimatedCostUSD == b.estimatedCostUSD && a.estimatedCostMicroUSD == b.estimatedCostMicroUSD && a.costKnown == b.costKnown
  }

  /** Equal except for cooperative labels and identity labels not marked authenticated. */
  ghost predicate DifferUnauthenticated(a: Context, b: Context) {
    a.confidence == b.confidence && SameEstimates(a, b)
    && forall d: Dimension :: !IsCooperative(d) && (IsIdentity(d) ==> DimensionConfidence(a, d) == AUTHENTICATED) ==> Label(a, d) == Label(b, d)
  }

  /** No identity dimension carries the marker that stands for "this dimension is no identity". */
  predicate NoImpostor(confidence: map<Dimension, string>) {
    forall d: Dimension :: IsIdentity(d) && d in confidence ==> confidence[d] != NOT_IDENTITY
  }

  lemma SameApplicability(policy: Policy, rule: Rule, a: Context, b: Context)
    requires ValidRule(policy, rule) && RuleMode(policy, rule) == Enforce
    requires DifferUnauthenticated(a, b) && NoImpostor(a.confidence)
    ensures Applies(policy, rule, a) <==> Applies(policy, rule, b)
    ensures IdentityScopeAuthenticated(rule, a) <==> IdentityScopeAuthenticated(rule, b)
  {
    forall d: Dimension ensures DimensionConfidence(a, d) == DimensionConfidence(b, d) {}
    forall d: Dimension | Trusted(a, d)
      ensures SelectorsAccept(rule, a, d) <==> SelectorsAccept(rule, b, d)
    {
      if !IsCooperative(d) {
        assert Label(a, d) == Label(b, d);
      }
    }
    if IdentityScopeAuthenticated(rule, a) {
      forall d: Dimension ensures SelectorsAccept(rule, a, d) <==> SelectorsAccept(rule, b, d) {
        if Selectors(rule, d) != [] {
          assert Trusted(a, d) || !HasIdentityScope(rule);
          assert IsIdentity(d) ==> Trusted(a, d);
        }
      }
    }
  }

  lemma SameStatic(policy: Policy, rule: Rule, a: Context, b: Context)
    requires ValidRule(policy, rule) && RuleMode(policy, rule) == Enforce
    requires DifferUnauthenticated(a, b)
    ensures StaticViolations(rule, a) == StaticViolations(rule, b)
  {
    hide StableSort;
    SameAccess(rule, a, b, MATCH_DIMENSIONS);
  }

  lemma {:induction false} SameAccess(rule: Rule, a: Context, b: Context, dimensions: seq<Dimension>)
    requires AccessOf(rule, ModelClass) == Access([], [])
    requires forall d :: d in dimensions ==> !IsIdentity(d) && (IsCooperative(d) ==> d == ModelClass)
    requires forall d: Dimension :: !IsCooperative(d) && !IsIdentity(d) ==> Label(a, d) == Label(b, d)
    ensures AccessViolations(rule, a, dimensions) == AccessViolations(rule, b, dimensions)
  {
    if dimensions != [] {
      var n := |dimensions| - 1;
      SameAccess(rule, a, b, dimensions[..n]);
      var d := dimensions[n];
      assert d != ModelClass ==> Label(a, d) == Label(b, d);
    }
  }

  // ----- histories that agree on what enforcing rules count -----

  ghost predicate SameForRule(policy: Policy, rule: Rule, a: Entry, b: Entry) {
    (RuleKey(policy, rule) in a.counterKeys <==> RuleKey(policy, rule) in b.counterKeys)
    && (RuleKey(policy, rule) in a.slotKeys <==> RuleKey(policy, rule) in b.slotKeys)
  }

  ghost predicate SameEnforced(policy: Policy, a: History, b: History) {
    |a| == |b|
    && (forall i :: 0 <= i < |a| ==> a[i].ts == b[i].ts && a[i].usage == b[i].usage && a[i].status == b[i].status)
    && forall i, rule :: 0 <= i < |a| && rule in policy.rules && RuleMode(policy, rule) == Enforce ==>
         SameForRule(policy, rule, a[i], b[i])
  }

  lemma SameCurrent(policy: Policy, rule: Rule, a: History, b: History, cutoff: int, counter: Counter, exact: bool)
    requires SameEnforced(policy, a, b) && rule in policy.rules && RuleMode(policy, rule) == Enforce
    ensures Current(a, RuleKey(policy, rule), cutoff, counter, exact) == Current(b, RuleKey(policy, rule), cutoff, counter, exact)
  {
    var span := Span(RuleKey(policy, rule), cutoff, None);
    forall i | 0 <= i < |a| ensures Covers(span, LIVE, a[i]) <==> Covers(span, LIVE, b[i]) {
      assert SameForRule(policy, rule, a[i], b[i]);
    }
    UsageSame(a, b, span, LIVE, counter);
  }

  lemma {:induction false} SameSlots(policy: Policy, rule: Rule, a: History, b: History)
    requires SameEnforced(policy, a, b) && rule in policy.rules && RuleMode(policy, rule) == Enforce
    ensures SlotsHeld(a, RuleKey(policy, rule)) == SlotsHeld(b, RuleKey(policy, rule))
  {
    if a != [] {
      var n := |a| - 1;
      SameSlots(policy, rule, a[..n], b[..n]);
      assert SameForRule(policy, rule, a[n], b[n]);
    }
  }

  lemma {:induction false} SameRequests(policy: Policy, rule: Rule, limits: seq<WindowLimit>, now: int, a: History, b: History, exact: bool)
    requires SameEnforced(policy, a, b) && rule in policy.rules && RuleMode(policy, rule) == Enforce
    requires forall i :: 0 <= i < |limits| ==> limits[i].window > 0
    ensures RequestViolations(limits, RuleKey(policy, rule), now, a, exact) == RequestViolations(limits, RuleKey(policy, rule), now, b, exact)
  {
    hide Current, SameEnforced;
    if limits != [] {
      var last := limits[|limits| - 1];
      SameRequests(policy, rule, limits[..|limits| - 1], now, a, b, exact);
      SameCurrent(policy, rule, a, b, WindowStart(now, last.window, last.windowType), Requests, exact);
    }
  }

  lemma {:induction false} SameTokens(policy: Policy, rule: Rule, limits: seq<WindowLimit>, x: Context, y: Context, now: int, a: History, b: History, exact: bool)
    requires SameEnforced(policy, a, b) && rule in policy.rules && RuleMode(policy, rule) == Enforce && SameEstimates(x, y)
    requires forall i :: 0 <= i < |limits| ==> limits[i].window > 0
    ensures TokenViolations(limits, x, RuleKey(policy, rule), now, a, exact) == TokenViolations(limits, y, RuleKey(policy, rule), now, b, exact)
  {
    hide Current, SameEnforced;
    if limits != [] {
      var last := limits[|limits| - 1];
      SameTokens(policy, rule, limits[..|limits| - 1], x, y, now, a, b, exact);
      SameCurrent(policy, rule, a, b, WindowStart(now, last.window, last.windowType), KindCounter(last.kind), exact);
    }
  }

  lemma {:induction false} SameDollars(policy: Policy, rule: Rule, limits: seq<DollarLimit>, x: Context, y: Context, now: int, a: History, b: History, exact: bool)
    requires SameEnforced(policy, a, b) && rule in policy.rules && RuleMode(policy, rule) == Enforce && SameEstimates(x, y)
    requires forall i :: 0 <= i < |limits| ==> limits[i].window > 0
    ensures DollarViolations(limits, x, RuleKey(policy, rule), now, a, exact) == DollarViolations(limits, y, RuleKey(policy, rule), now, b, exact)
  {
    hide Current, SameEnforced;
    if limits != [] {
      var last := limits[|limits| - 1];
      SameDollars(policy, rule, limits[..|limits| - 1], x, y, now, a, b, exact);
      SameCurrent(policy, rule, a, b, WindowStart(now, last.window, last.windowType), Cost, exact);
    }
  }

  lemma SameRuleViolations(policy: Policy, rule: Rule, x: Context, y: Context, now: int, a: History, b: History, exact: bool)
    requires ValidPolicy(policy) && rule in policy.rules && RuleMode(policy, rule) == Enforce
    requires DifferUnauthenticated(x, y) && NoImpostor(x.confidence) && SameEnforced(policy, a, b)
    ensures RuleViolations(policy, rule, x, now, a, exact) == RuleViolations(policy, rule, y, now, b, exact)
  {
    hide StaticViolations, RequestViolations, TokenViolations, DollarViolations, StableSort, SameEnforced, IdentityScopeAuthenticated, Applies;
    assert ValidRule(policy, rule) && SameEstimates(x, y);
    SameStatic(policy, rule, x, y);
    SameApplicability(policy, rule, x, y);
    SameRequests(policy, rule, rule.limits.requests, now, a, b, exact);
    SameTokens(policy, rule, rule.limits.tokens, x, y, now, a, b, exact);
    SameDollars(policy, rule, rule.limits.dollars, x, y, now, a, b, exact);
    SameSlots(policy, rule, a, b);
  }

  /** What the enforcing rules of a list find, in order. */
  function Findings(policy: Policy, rules: seq<Rule>, context: Context, now: int, h: History, exact: bool): seq<Violation>
    requires forall i :: 0 <= i < |rules| ==> ValidRule(policy, rules[i])
  {
    if rules == [] then []
    else
      var n := |rules| - 1;
      Findings(policy, rules[..n], context, now, h, exact) + RuleViolations(policy, rules[n], context, now, h, exact)
  }

  lemma DecisionsAppend(policy: Policy, front: seq<Rule>, last: Rule, context: Context, now: int, h: History, exact: bool)
    requires forall i :: 0 <= i < |front| ==> ValidRule(policy, front[i])
    requires ValidRule(policy, last)
    ensures EnforcedViolations(RuleDecisions(policy, front + [last], context, now, h, exact))
            == EnforcedViolations(RuleDecisions(policy, front, context, now, h, exact))
               + (if RuleMode(policy, last) == Enforce then RuleViolations(policy, last, context, now, h, exact) else [])
  {
    hide RuleViolations, ValidRule, Specificity;
    assert RuleDecisions(policy, front + [last], context, now, h, exact)[..|front|]
           == RuleDecisions(policy, front, context, now, h, exact);
  }

  lemma FindingsAppend(policy: Policy, front: seq<Rule>, last: Rule, context: Context, now: int, h: History, exact: bool)
    requires forall i :: 0 <= i < |front| ==> ValidRule(policy, front[i])
    requires ValidRule(policy, last)
    ensures Findings(policy, front + [last], context, now, h, exact)
            == Findings(policy, front, context, now, h, exact) + RuleViolations(policy, last, context, now, h, exact)
  {
    hide RuleViolations, ValidRule;
    assert (front + [last])[..|front|] == front;
  }

  lemma {:induction false} EnforcedAreFindings(policy: Policy, rules: seq<Rule>, context: Context, now: int, h: History, exact: bool)
    requires forall i :: 0 <= i < |rules| ==> ValidRule(policy, rules[i])
    ensures forall i :: 0 <= i < |Enforcing(policy, rules)| ==> ValidRule(policy, Enforcing(policy, rules)[i])
    ensures EnforcedViolations(RuleDecisions(policy, rules, context, now, h, exact))
            == Findings(policy, Enforcing(policy, rules), context, now, h, exact)
  {
    hide RuleViolations, ValidRule, RuleMode, RuleDecisions, Enforcing;
    forall i | 0 <= i < |Enforcing(policy, rules)| ensures ValidRule(policy, Enforcing(policy, rules)[i]) {
      assert Enforcing(policy, rules)[i] in rules;
    }
    if rules == [] {
      NoFindings(policy, context, now, h, exact);
    } else {
      var front, last := rules[..|rules| - 1], rules[|rules| - 1];
      EnforcedAreFindings(policy, front, context, now, h, exact);
      assert rules == front + [last];
      DecisionsAppend(policy, front, last, context, now, h, exact);
      EnforcingAppend(policy, front, last);
      if RuleMode(policy, last) == Enforce {
        FindingsAppend(policy, Enforcing(policy, front), last, context, now, h, exact);
      } else {
        assert Enforcing(policy, front) + [] == Enforcing(policy, front);
      }
    }
  }

  lemma NoFindings(policy: Policy, context: Context, now: int, h: History, exact: bool)
    ensures EnforcedViolations(RuleDecisions(policy, [], context, now, h, exact)) == []
    ensures Enforcing(policy, []) == [] && Findings(policy, [], context, now, h, exact) == []
  {
  }

  lemma {:induction false} SameFindings(policy: Policy, rules: seq<Rule>, x: Context, y: Context, now: int, a: History, b: History, exact: bool)
    requires ValidPolicy(policy)
    requires forall i :: 0 <= i < |rules| ==> rules[i] in policy.rules && RuleMode(policy, rules[i]) == Enforce && ValidRule(policy, rules[i])
    requires DifferUnauthenticated(x, y) && NoImpostor(x.confidence) && SameEnforced(policy, a, b)
    ensures Findings(policy, rules, x, now, a, exact) == Findings(policy, rules, y, now, b, exact)
  {
    hide RuleViolations, ValidRule, ValidPolicy, DifferUnauthenticated, NoImpostor, SameEnforced;
    if rules != [] {
      var n := |rules| - 1;
      SameFindings(policy, rules[..n], x, y, now, a, b, exact);
      SameRuleViolations(policy, rules[n], x, y, now, a, b, exact);
    }
  }

  lemma SelectedStep(policy: Policy, front: seq<Rule>, last: Rule, context: Context)
    ensures Enforcing(policy, SelectApplicable(policy, front + [last], context))
            == Enforcing(policy, SelectApplicable(policy, front, context))
               + (if RuleMode(policy, last) == Enforce && Applies(policy, last, context) then [last] else [])
  {
    hide Applies, Enforcing, RuleMode;
    assert (front + [last])[..|front|] == front;
    EnforcingAppend(policy, SelectApplicable(policy, front, context), last);
  }

  lemma {:induction false} SameSelected(policy: Policy, rules: seq<Rule>, x: Context, y: Context)
    requires forall i :: 0 <= i < |rules| ==> ValidRule(policy, rules[i])
    requires DifferUnauthenticated(x, y) && NoImpostor(x.confidence)
    ensures Enforcing(policy, SelectApplicable(policy, rules, x)) == Enforcing(policy, SelectApplicable(policy, rules, y))
  {
    hide Applies, ValidRule, DifferUnauthenticated, NoImpostor, Enforcing, RuleMode;
    if rules != [] {
      var front, last := rules[..|rules| - 1], rules[|rules| - 1];
      SameSelected(policy, front, x, y);
      assert rules == front + [last];
      SelectedStep(policy, front, last, x);
      SelectedStep(policy, front, last, y);
      if RuleMode(policy, last) == Enforce {
        SameApplicability(policy, last, x, y);
      }
    }
  }

  /** The enforcing rules that apply, and the order they are read in, are the same. */
  lemma SameEnforcingRules(policy: Policy, x: Context, y: Context)
    requires ValidPolicy(policy) && DifferUnauthenticated(x, y) && NoImpostor(x.confidence)
    ensures Enforcing(policy, ApplicableRules(policy, x)) == Enforcing(policy, ApplicableRules(policy, y))
  {
    hide DifferUnauthenticated, NoImpostor, Enforcing, NarrowerFirst, SelectApplicable, StrictWeakOrder;
    NarrowerFirstIsOrder();
    SameSelected(policy, policy.rules, x, y);
    EnforcingSort(policy, SelectApplicable(policy, policy.rules, x));
    EnforcingSort(policy, SelectApplicable(policy, policy.rules, y));
  }

  ghost predicate SameOutcome(policy: Policy, x: Context, y: Context, now: int, a: History, b: History)
    requires ValidPolicy(policy)
  {
    Decide(policy, x, now, a, false).denied == Decide(policy, y, now, b, false).denied
    && Decide(policy, x, now, a, false).status == Decide(policy, y, now, b, false).status
  }

  lemma {:induction false} EnforcingModes(policy: Policy, rules: seq<Rule>)
    ensures forall i :: 0 <= i < |Enforcing(policy, rules)| ==>
              RuleMode(policy, Enforcing(policy, rules)[i]) == Enforce && Enforcing(policy, rules)[i] in rules
  {
    if rules != [] {
      EnforcingModes(policy, rules[..|rules| - 1]);
    }
  }

  lemma OneDecision(policy: Policy, x: Context, y: Context, now: int, a: History, b: History)
    requires ValidPolicy(policy) && DifferUnauthenticated(x, y) && NoImpostor(x.confidence) && SameEnforced(policy, a, b)
    ensures SameOutcome(policy, x, y, now, a, b)
  {
    hide DifferUnauthenticated, NoImpostor, SameEnforced, Enforcing, ApplicableRules, Findings, ValidRule, StatusForViolations;
    hide RuleDecisions, EnforcedViolations;
    ApplicableValid(policy, x);
    ApplicableValid(policy, y);
    var rules := ApplicableRules(policy, x);
    SameEnforcingRules(policy, x, y);
    EnforcingModes(policy, rules);
    forall i | 0 <= i < |Enforcing(policy, rules)| ensures Enforcing(policy, rules)[i] in policy.rules {
      ApplicableMember(policy, x, Enforcing(policy, rules)[i]);
    }
    EnforcedAreFindings(policy, rules, x, now, a, false);
    EnforcedAreFindings(policy, ApplicableRules(policy, y), y, now, b, false);
    SameFindings(policy, Enforcing(policy, rules), x, y, now, a, b, false);
  }

  // ----- whole runs -----

  ghost predicate RelatedSteps(policy: Policy, s: Step, t: Step) {
    if s.Prepare? then
      t.Prepare? && s.now == t.now && s.policy == t.policy == Some(policy) && s.storeOk == t.storeOk
      && DifferUnauthenticated(s.context, t.context) && NoImpostor(s.context.confidence)
    else s == t
  }

  ghost predicate RelatedRuns(policy: Policy, ss: seq<Step>, tt: seq<Step>) {
    |ss| == |tt| && forall i :: 0 <= i < |ss| ==> ValidStep(ss[i]) && ValidStep(tt[i]) && RelatedSteps(policy, ss[i], tt[i])
  }

  lemma SameNewEntry(policy: Policy, x: Context, y: Context, now: int, a: History, b: History)
    requires ValidPolicy(policy) && DifferUnauthenticated(x, y) && NoImpostor(x.confidence) && SameEnforced(policy, a, b)
    ensures SameEnforced(policy, a + [NewEntry(policy, x, now)], b + [NewEntry(policy, y, now)])
  {
    hide Applies, CounterKeys, SlotKeys, NoImpostor, ValidRule, IdentityScopeAuthenticated;
    var e, f := NewEntry(policy, x, now), NewEntry(policy, y, now);
    assert e.usage == f.usage;
    forall rule | rule in policy.rules && RuleMode(policy, rule) == Enforce
      ensures SameForRule(policy, rule, e, f)
    {
      SameApplicability(policy, rule, x, y);
      KeyApplies(policy, x, rule);
      KeyApplies(policy, y, rule);
    }
  }

  lemma OneStep(policy: Policy, s: Step, t: Step, a: History, b: History)
    requires ValidPolicy(policy) && ValidStep(s) && ValidStep(t)
    requires RelatedSteps(policy, s, t) && SameEnforced(policy, a, b)
    ensures SameEnforced(policy, Next(a, s), Next(b, t))
    ensures s.Prepare? ==> SameOutcome(policy, s.context, t.context, s.now, a, b)
  {
    hide NoImpostor, NewEntry, Decide, SameForRule, ConservativeCostMicroUSD;
    if s.Prepare? {
      OneDecision(policy, s.context, t.context, s.now, a, b);
      SameRefusals(s.context, t.context);
      if s.storeOk && Admits(policy, s.context, s.now, a) {
        SameNewEntry(policy, s.context, t.context, s.now, a, b);
      }
    } else {
      forall index: nat, status: Status | index < |a|
        ensures SameEnforced(policy, WithStatus(a, index, status), WithStatus(b, index, status))
      {
        SameAfterStatus(policy, a, b, index, status);
      }
    }
  }

  lemma SameRefusals(x: Context, y: Context)
    requires DifferUnauthenticated(x, y)
    ensures BadEstimate(x) == BadEstimate(y) && Unrepresentable(x) == Unrepresentable(y)
  {
  }

  lemma SameAfterStatus(policy: Policy, a: History, b: History, index: nat, status: Status)
    requires SameEnforced(policy, a, b) && index < |a|
    ensures SameEnforced(policy, WithStatus(a, index, status), WithStatus(b, index, status))
  {
    var c, d := WithStatus(a, index, status), WithStatus(b, index, status);
    forall i, rule | 0 <= i < |c| && rule in policy.rules && RuleMode(policy, rule) == Enforce
      ensures SameForRule(policy, rule, c[i], d[i])
    {
      assert SameForRule(policy, rule, a[i], b[i]);
    }
  }

  /** Two runs that differ only in labels nobody authenticated agree at every step: the same
      requests pass, with the same status, and enforcing rules count the same. */
  lemma {:induction false} RunsAgree(policy: Policy, ss: seq<Step>, tt: seq<Step>, at: nat)
    requires ValidPolicy(policy) && RelatedRuns(policy, ss, tt) && at <= |ss|
    ensures SameEnforced(policy, Run(ss[..at]), Run(tt[..at]))
    ensures at < |ss| && ss[at].Prepare? ==>
              tt[at].Prepare?
              && SameOutcome(policy, ss[at].context, tt[at].context, ss[at].now, Run(ss[..at]), Run(tt[..at]))
  {
    hide SameEnforced, SameOutcome, Next, NoImpostor, DifferUnauthenticated, ValidPolicy;
    if at == 0 {
      NothingDiffers(policy);
    } else {
      RunsAgree(policy, ss, tt, at - 1);
      assert ss[..at][..at - 1] == ss[..at - 1] && tt[..at][..at - 1] == tt[..at - 1];
      OneStep(policy, ss[at - 1], tt[at - 1], Run(ss[..at - 1]), Run(tt[..at - 1]));
    }
    if at < |ss| {
      OneStep(policy, ss[at], tt[at], Run(ss[..at]), Run(tt[..at]));
    }
  }

  lemma NothingDiffers(policy: Policy)
    ensures SameEnforced(policy, [], [])
  {
  }

  // ----- the marker that would defeat it -----

  /** Every validated policy decides alike, whatever unauthenticated labels say. */
  ghost predicate Noninterfering(confidence: map<Dimension, string>) {
    forall policy: Policy, x: Context, y: Context, now: int, h: History :: ValidPolicy(policy) && x.confidence == confidence && DifferUnauthenticated(x, y) ==>
      SameOutcome(policy, x, y, now, h, h)
  }

  const NO_LIMITS := Limits([], [], [], 0, None, false)

  /** An identity label whose confidence reads "not_identity" is matched as if it were trusted. */
  lemma ImpostorInterferes(d: Dimension, confidence: map<Dimension, string>)
    requires IsIdentity(d) && d in confidence && confidence[d] == NOT_IDENTITY
    ensures !Noninterfering(confidence)
  {
    hide Decide, Applies;
    var rule := Rule("r", Some(Enforce), map[d := ["a"]], map[Provider := Access([], ["x"])], NO_LIMITS);
    var policy := Policy("n", Enforce, [rule]);
    var x := Context(map[d := "a", Provider := "x"], confidence, 0, 0, false, 0.0, 0, false);
    var y := Context(map[d := "b", Provider := "x"], confidence, 0, 0, false, 0.0, 0, false);
    ImpostorSetup(d, confidence);
    ImpostorApplies(policy, rule, d, x, y);
    DeniedByAccess(policy, rule, x);
    NotDenied(policy, rule, y);
    assert !SameOutcome(policy, x, y, 0, [], []);
  }

  lemma ImpostorSetup(d: Dimension, confidence: map<Dimension, string>)
    requires IsIdentity(d) && d in confidence && confidence[d] == NOT_IDENTITY
    ensures ValidPolicy(Policy("n", Enforce, [Rule("r", Some(Enforce), map[d := ["a"]], map[Provider := Access([], ["x"])], NO_LIMITS)]))
    ensures DifferUnauthenticated(
              Context(map[d := "a", Provider := "x"], confidence, 0, 0, false, 0.0, 0, false),
              Context(map[d := "b", Provider := "x"], confidence, 0, 0, false, 0.0, 0, false))
  {
    var rule := Rule("r", Some(Enforce), map[d := ["a"]], map[Provider := Access([], ["x"])], NO_LIMITS);
    assert Restricts(rule, Provider);
  }

  lemma ImpostorApplies(policy: Policy, rule: Rule, d: Dimension, x: Context, y: Context)
    requires IsIdentity(d) && rule.scope == map[d := ["a"]] && rule.mode == Some(Enforce)
    requires Label(x, d) == "a" && Label(y, d) == "b"
    requires d in x.confidence && x.confidence[d] == NOT_IDENTITY && y.confidence == x.confidence
    ensures Applies(policy, rule, x) && !Applies(policy, rule, y)
  {
    SelectsLetter();
    assert SelectorsAccept(rule, x, d) && !SelectorsAccept(rule, y, d);
    forall e: Dimension | e != d ensures Selectors(rule, e) == [] {}
    assert Trusted(x, d) && Trusted(y, d);
  }

  lemma SelectsLetter()
    ensures Wildcard.SelectsAny(["a"], "a") && !Wildcard.SelectsAny(["a"], "b") && Wildcard.SelectsAny(["x"], "x")
  {
    assert Wildcard.Selects("a", "a") && !Wildcard.Selects("a", "b") && Wildcard.Selects("x", "x");
    assert ["a"][0] == "a" && ["x"][0] == "x";
  }

  lemma DeniedByAccess(policy: Policy, rule: Rule, x: Context)
    requires ValidPolicy(policy) && policy.rules == [rule] && RuleMode(policy, rule) == Enforce && Applies(policy, rule, x)
    requires rule.access == map[Provider := Access([], ["x"])] && Label(x, Provider) == "x"
    ensures Decide(policy, x, 0, [], false).denied
  {
    hide Applies, Decide;
    SelectsLetter();
    assert DenySelected(rule, x, Provider);
    AccessFound(rule, x, MATCH_DIMENSIONS, 0);
    StaticKeepsAccess(rule, x);
    assert rule in policy.rules;
    assert Broken(policy, rule, x, 0, [], false, true);
    DeniedIffBroken(policy, x, 0, [], false);
  }

  lemma {:induction false} AccessFound(rule: Rule, context: Context, dimensions: seq<Dimension>, i: nat)
    requires i < |dimensions| && DenySelected(rule, context, dimensions[i])
    ensures AccessViolations(rule, context, dimensions) != []
  {
    hide DenySelected, OutsideAllow;
    if i < |dimensions| - 1 {
      AccessFound(rule, context, dimensions[..|dimensions| - 1], i);
    }
  }

  lemma StaticKeepsAccess(rule: Rule, context: Context)
    requires AccessViolations(rule, context, MATCH_DIMENSIONS) != []
    ensures StaticBroken(rule, context, true)
  {
    hide AccessViolations, StableSort;
    assert StaticViolations(rule, context) != [];
    assert StaticViolations(rule, context)[0] in StaticViolations(rule, context);
  }

  lemma NotDenied(policy: Policy, rule: Rule, y: Context)
    requires ValidPolicy(policy) && policy.rules == [rule] && !Applies(policy, rule, y)
    ensures !Decide(policy, y, 0, [], false).denied
  {
    hide Applies, Broken, Decide;
    DeniedIffBroken(policy, y, 0, [], false);
  }

  /** Noninterference holds for every validated policy exactly when no identity dimension is
      marked "not_identity": the code tests that marker in a value the caller's context carries. */
  lemma NoninterferenceExactly(confidence: map<Dimension, string>)
    ensures Noninterfering(confidence) <==> NoImpostor(confidence)
  {
    hide SameOutcome, DifferUnauthenticated, ValidPolicy;
    if NoImpostor(confidence) {
      forall policy: Policy, x: Context, y: Context, now: int, h: History | ValidPolicy(policy) && x.confidence == confidence && DifferUnauthenticated(x, y)
        ensures SameOutcome(policy, x, y, now, h, h)
      {
        SameAsItself(policy, h);
        OneDecision(policy, x, y, now, h, h);
      }
    } else {
      var d: Dimension :| IsIdentity(d) && d in confidence && confidence[d] == NOT_IDENTITY;
      ImpostorInterferes(d, confidence);
    }
  }

  lemma SameAsItself(policy: Policy, h: History)
    ensures SameEnforced(policy, h, h)
  {
  }
}
