/** The admission decision: which rules apply, what each one finds wrong with a request, and what
    that does to the history of reservations. The history is one list of entries, oldest first;
    the engine's maps and rows are a representation of it (see module PolicyEngine). */
module Admission {
  import opened Common
  import opened PolicyTypes
  import opened Sorting
  import Wildcard

  // ----- history of reservations -----

  datatype Key = Key(namespace: string, ruleID: string)

  datatype Usage = Usage(requests: int, input: int, output: int, total: int, cost: int)

  datatype Counter = Requests | Input | Output | Total | Cost

  function Amount(usage: Usage, counter: Counter): int {
    match counter
    case Requests => usage.requests
    case Input => usage.input
    case Output => usage.output
    case Total => usage.total
    case Cost => usage.cost
  }

  predicate NonNegative(usage: Usage) {
    usage.requests >= 0 && usage.input >= 0 && usage.output >= 0 && usage.total >= 0 && usage.cost >= 0
  }

  /** Prepared: pending and holding slots. Committed: durably counted and holding slots.
      Done: durably counted. Dropped: given back, never counted. */
  datatype Status = Prepared | Committed | Done | Dropped

  const LIVE: set<Status> := {Prepared, Committed, Done}
  const DURABLE: set<Status> := {Committed, Done}
  const PENDING: set<Status> := {Prepared}

  datatype Entry = Entry(ts: int, usage: Usage, counterKeys: set<Key>, slotKeys: set<Key>, status: Status)

  type History = seq<Entry>

  /** One rule's usage from `from` on, up to and including `until` when given. */
  datatype Span = Span(key: Key, from: int, until: Option<int>)

  predicate Covers(span: Span, statuses: set<Status>, e: Entry) {
    span.key in e.counterKeys && span.from <= e.ts && (span.until.None? || e.ts <= span.until.value)
    && e.status in statuses
  }

  function UsageIn(h: History, span: Span, statuses: set<Status>, counter: Counter): int {
    if h == [] then 0
    else
      var last := h[|h| - 1];
      UsageIn(h[..|h| - 1], span, statuses, counter)
      + (if Covers(span, statuses, last) then Amount(last.usage, counter) else 0)
  }

  function SlotsHeld(h: History, key: Key): int {
    if h == [] then 0
    else
      var last := h[|h| - 1];
      SlotsHeld(h[..|h| - 1], key)
      + (if key in last.slotKeys && (last.status == Prepared || last.status == Committed) then 1 else 0)
  }

  /** What a window shows: durable plus pending usage. The live engine's int64 counters
      saturate; an exact reader's do not. */
  function Current(h: History, key: Key, cutoff: int, counter: Counter, exact: bool): int {
    var sum := UsageIn(h, Span(key, cutoff, None), LIVE, counter);
    if exact then sum else Min(MAX_INT64, sum)
  }

  // ----- which rules apply -----

  const AUTHENTICATED := "authenticated"
  const NOT_IDENTITY := "not_identity"

  function DimensionConfidence(context: Context, d: Dimension): string {
    if IsIdentity(d) then (if d in context.confidence then context.confidence[d] else "") else NOT_IDENTITY
  }

  predicate HasIdentityScope(rule: Rule) {
    exists d: Dimension :: IsIdentity(d) && Selectors(rule, d) != []
  }

  /** A dimension whose label takes part in matching whatever the rule's mode. */
  predicate Trusted(context: Context, d: Dimension) {
    DimensionConfidence(context, d) == NOT_IDENTITY || DimensionConfidence(context, d) == AUTHENTICATED
  }

  predicate IdentityScopeAuthenticated(rule: Rule, context: Context) {
    !HasIdentityScope(rule) || forall d: Dimension :: Selectors(rule, d) != [] ==> Trusted(context, d)
  }

  predicate SelectorsAccept(rule: Rule, context: Context, d: Dimension) {
    Selectors(rule, d) == [] || Wildcard.SelectsAny(Selectors(rule, d), Label(context, d))
  }

  predicate RuleApplies(rule: Rule, context: Context) {
    forall d: Dimension :: SelectorsAccept(rule, context, d)
  }

  predicate RuleAppliesIgnoringUntrusted(rule: Rule, context: Context) {
    forall d: Dimension :: Trusted(context, d) ==> SelectorsAccept(rule, context, d)
  }

  predicate Applies(policy: Policy, rule: Rule, context: Context) {
    if RuleMode(policy, rule) == Enforce && !IdentityScopeAuthenticated(rule, context)
    then RuleAppliesIgnoringUntrusted(rule, context)
    else RuleApplies(rule, context)
  }

  function ScopeSize(rule: Rule, dimensions: seq<Dimension>): nat {
    if dimensions == [] then 0
    else ScopeSize(rule, dimensions[1..]) + (if Selectors(rule, dimensions[0]) != [] then 1 else 0)
  }

  const DIMENSIONS: seq<Dimension> := [
    Organization, Tenant, Meter, Device, Team, CostCenter, Principal, ServiceAccount, User, Project,
    Environment, Agent, Session, Provider, Model, ModelClass, Route, Tier, ServiceTier, Geo, InferenceGeo]

  function Specificity(rule: Rule): nat { ScopeSize(rule, DIMENSIONS) }

  predicate NarrowerFirst(a: Rule, b: Rule) {
    if Specificity(a) != Specificity(b) then Specificity(a) > Specificity(b) else Precedes(a.id, b.id)
  }

  function SelectApplicable(policy: Policy, rules: seq<Rule>, context: Context): (r: seq<Rule>)
    ensures forall x :: x in r <==> x in rules && Applies(policy, x, context)
    ensures multiset(r) <= multiset(rules)
  {
    if rules == [] then []
    else
      assert rules == rules[..|rules| - 1] + [rules[|rules| - 1]];
      var front := SelectApplicable(policy, rules[..|rules| - 1], context);
      if Applies(policy, rules[|rules| - 1], context) then front + [rules[|rules| - 1]] else front
  }

  function ApplicableRules(policy: Policy, context: Context): seq<Rule> {
    StableSort(SelectApplicable(policy, policy.rules, context), NarrowerFirst)
  }

  lemma ApplicableMember(policy: Policy, context: Context, rule: Rule)
    ensures rule in ApplicableRules(policy, context) <==> rule in policy.rules && Applies(policy, rule, context)
  {
    SameMembers(SelectApplicable(policy, policy.rules, context), NarrowerFirst, rule);
  }

  // ----- what a rule finds -----

  /** In the order the codes sort as text. */
  datatype Code =
    | AuthenticatedIdentityRequired | ConcurrencyLimit | DenyMatch | DollarLimitReached | EstimatedCostUnknown
    | MaxEstimatedCallCost | NotAllowed | OutputBoundRequired | RequestLimit | TokenLimit

  function CodeRank(code: Code): nat {
    match code
    case AuthenticatedIdentityRequired => 0
    case ConcurrencyLimit => 1
    case DenyMatch => 2
    case DollarLimitReached => 3
    case EstimatedCostUnknown => 4
    case MaxEstimatedCallCost => 5
    case NotAllowed => 6
    case OutputBoundRequired => 7
    case RequestLimit => 8
    case TokenLimit => 9
  }

  datatype Violation = Violation(code: Code, dimension: string, limitID: string)

  predicate ViolationBefore(a: Violation, b: Violation) {
    if a.code != b.code then CodeRank(a.code) < CodeRank(b.code)
    else if a.dimension != b.dimension then Precedes(a.dimension, b.dimension)
    else Precedes(a.limitID, b.limitID)
  }

  const MATCH_DIMENSIONS: seq<Dimension> := [Provider, Model, ModelClass, Route, Tier, ServiceTier, Geo, InferenceGeo]

  function DimensionName(d: Dimension): string {
    match d
    case Provider => "provider"
    case Model => "model"
    case ModelClass => "model_class"
    case Route => "route"
    case Tier => "tier"
    case ServiceTier => "service_tier"
    case Geo => "geo"
    case InferenceGeo => "inference_geo"
    case _ => "scope"
  }

  predicate DenySelected(rule: Rule, context: Context, d: Dimension) {
    AccessOf(rule, d).deny != [] && Wildcard.SelectsAny(AccessOf(rule, d).deny, Label(context, d))
  }

  predicate OutsideAllow(rule: Rule, context: Context, d: Dimension) {
    AccessOf(rule, d).allow != [] && !Wildcard.SelectsAny(AccessOf(rule, d).allow, Label(context, d))
  }

  function AccessViolations(rule: Rule, context: Context, dimensions: seq<Dimension>): seq<Violation> {
    if dimensions == [] then []
    else
      var n := |dimensions| - 1;
      var d := dimensions[n];
      AccessViolations(rule, context, dimensions[..n])
      + (if DenySelected(rule, context, d) then [Violation(DenyMatch, DimensionName(d), "")]
         else if OutsideAllow(rule, context, d) then [Violation(NotAllowed, DimensionName(d), "")]
         else [])
  }

  predicate NeedsOutputBound(rule: Rule) {
    rule.limits.requireOutputBound
    || exists i :: 0 <= i < |rule.limits.tokens| && rule.limits.tokens[i].kind != InputKind
  }

  function StaticViolations(rule: Rule, context: Context): seq<Violation> {
    var access := AccessViolations(rule, context, MATCH_DIMENSIONS);
    var bound := if NeedsOutputBound(rule) && !context.outputBoundPresent
                 then [Violation(OutputBoundRequired, "output_tokens", "")] else [];
    var cost := if rule.limits.maxCallCostUSD.None? then []
                else if !context.costKnown then [Violation(EstimatedCostUnknown, "cost", "")]
                else if context.estimatedCostUSD > rule.limits.maxCallCostUSD.value
                then [Violation(MaxEstimatedCallCost, "cost", "")] else [];
    StableSort(access + bound + cost, ViolationBefore)
  }

  function IdentityViolations(policy: Policy, rule: Rule, context: Context): seq<Violation> {
    if RuleMode(policy, rule) == Enforce && !IdentityScopeAuthenticated(rule, context)
    then [Violation(AuthenticatedIdentityRequired, "identity", "")] else []
  }

  function KindCounter(kind: TokenKind): Counter {
    match kind
    case InputKind => Input
    case OutputKind => Output
    case _ => Total
  }

  function KindName(kind: TokenKind): string {
    match kind
    case InputKind => "input_tokens"
    case OutputKind => "output_tokens"
    case _ => "total_tokens"
  }

  predicate RequestExceeded(limit: WindowLimit, key: Key, now: int, h: History, exact: bool)
    requires limit.window > 0
  {
    Current(h, key, WindowStart(now, limit.window, limit.windowType), Requests, exact) >= limit.max
  }

  /** A limit on a kind the request leaves unbounded is not checked. */
  predicate TokenExceeded(limit: WindowLimit, context: Context, key: Key, now: int, h: History, exact: bool)
    requires limit.window > 0
  {
    var requested := EstimatedTokensForKind(context, limit.kind);
    requested.Some?
    && Current(h, key, WindowStart(now, limit.window, limit.windowType), KindCounter(limit.kind), exact)
       > limit.max - requested.value
  }

  predicate DollarExceeded(limit: DollarLimit, requested: int, key: Key, now: int, h: History, exact: bool)
    requires limit.window > 0
  {
    Current(h, key, WindowStart(now, limit.window, limit.windowType), Cost, exact) > limit.maxMicroUSD - requested
  }

  /** A dollar window also objects to a cost nobody can bound. */
  predicate DollarObjects(limit: DollarLimit, context: Context, key: Key, now: int, h: History, exact: bool)
    requires limit.window > 0
  {
    var cost := ConservativeCostMicroUSD(context);
    cost.None? || DollarExceeded(limit, cost.value, key, now, h, exact)
  }

  predicate SlotsExceeded(rule: Rule, key: Key, h: History) {
    rule.limits.concurrency > 0 && SlotsHeld(h, key) + 1 > rule.limits.concurrency
  }

  function RequestViolations(limits: seq<WindowLimit>, key: Key, now: int, h: History, exact: bool): seq<Violation>
    requires forall i :: 0 <= i < |limits| ==> limits[i].window > 0
  {
    if limits == [] then []
    else
      var n := |limits| - 1;
      RequestViolations(limits[..n], key, now, h, exact)
      + (if RequestExceeded(limits[n], key, now, h, exact)
         then [Violation(RequestLimit, "requests", limits[n].id)] else [])
  }

  function TokenViolations(limits: seq<WindowLimit>, context: Context, key: Key, now: int, h: History, exact: bool)
    : seq<Violation>
    requires forall i :: 0 <= i < |limits| ==> limits[i].window > 0
  {
    if limits == [] then []
    else
      var n := |limits| - 1;
      TokenViolations(limits[..n], context, key, now, h, exact)
      + (if TokenExceeded(limits[n], context, key, now, h, exact)
         then [Violation(TokenLimit, KindName(limits[n].kind), limits[n].id)] else [])
  }

  function DollarViolations(limits: seq<DollarLimit>, context: Context, key: Key, now: int, h: History, exact: bool)
    : seq<Violation>
    requires forall i :: 0 <= i < |limits| ==> limits[i].window > 0
  {
    if limits == [] then []
    else
      var n := |limits| - 1;
      var cost := ConservativeCostMicroUSD(context);
      DollarViolations(limits[..n], context, key, now, h, exact)
      + (if cost.None? then [Violation(EstimatedCostUnknown, "dollars", limits[n].id)]
         else if DollarExceeded(limits[n], cost.value, key, now, h, exact)
         then [Violation(DollarLimitReached, "dollars", limits[n].id)] else [])
  }

  function RuleKey(policy: Policy, rule: Rule): Key { Key(policy.namespace, rule.id) }

  function RuleViolations(policy: Policy, rule: Rule, context: Context, now: int, h: History, exact: bool)
    : seq<Violation>
    requires ValidRule(policy, rule)
  {
    var key := RuleKey(policy, rule);
    StableSort(
      StaticViolations(rule, context) + IdentityViolations(policy, rule, context)
      + RequestViolations(rule.limits.requests, key, now, h, exact)
      + TokenViolations(rule.limits.tokens, context, key, now, h, exact)
      + DollarViolations(rule.limits.dollars, context, key, now, h, exact)
      + (if SlotsExceeded(rule, key, h) then [Violation(ConcurrencyLimit, "concurrency", "")] else []),
      ViolationBefore)
  }

  // ----- the decision -----

  datatype RuleDecision = RuleDecision(ruleID: string, mode: Mode, specificity: nat, violations: seq<Violation>)

  function RuleDecisions(policy: Policy, rules: seq<Rule>, context: Context, now: int, h: History, exact: bool)
    : (r: seq<RuleDecision>)
    requires forall i :: 0 <= i < |rules| ==> ValidRule(policy, rules[i])
    ensures |r| == |rules|
    ensures forall i :: 0 <= i < |rules| ==>
              r[i] == RuleDecision(rules[i].id, RuleMode(policy, rules[i]), Specificity(rules[i]),
                                   RuleViolations(policy, rules[i], context, now, h, exact))
  {
    seq(|rules|, i requires 0 <= i < |rules| =>
      RuleDecision(rules[i].id, RuleMode(policy, rules[i]), Specificity(rules[i]),
                   RuleViolations(policy, rules[i], context, now, h, exact)))
  }

  function EnforcedViolations(decisions: seq<RuleDecision>): seq<Violation> {
    if decisions == [] then []
    else
      var n := |decisions| - 1;
      EnforcedViolations(decisions[..n]) + (if decisions[n].mode == Enforce then decisions[n].violations else [])
  }

  predicate IsCostCode(code: Code) {
    code.MaxEstimatedCallCost? || code.EstimatedCostUnknown? || code.DollarLimitReached?
  }

  predicate IsRateCode(code: Code) {
    code.RequestLimit? || code.TokenLimit? || code.ConcurrencyLimit?
  }

  /** The scan keeps `status` for cost and rate findings and stops at the first identity or
      access finding. */
  function StatusFrom(violations: seq<Violation>, status: int): int {
    if violations == [] then status
    else
      var code := violations[0].code;
      if code.AuthenticatedIdentityRequired? then 401
      else if code.DenyMatch? || code.NotAllowed? then 403
      else
        StatusFrom(violations[1..],
          if IsCostCode(code) then 402
          else if IsRateCode(code) && status != 402 then 429
          else status)
  }

  function StatusForViolations(violations: seq<Violation>): int { StatusFrom(violations, 422) }

  predicate Settles(code: Code) { code.AuthenticatedIdentityRequired? || code.DenyMatch? || code.NotAllowed? }

  lemma {:induction false} StatusScan(violations: seq<Violation>, status: int)
    ensures forall k :: 0 <= k < |violations| && Settles(violations[k].code) && (forall i :: 0 <= i < k ==> !Settles(violations[i].code))
              ==> StatusFrom(violations, status) == if violations[k].code.AuthenticatedIdentityRequired? then 401 else 403
    ensures (forall i :: 0 <= i < |violations| ==> !Settles(violations[i].code)) ==>
              StatusFrom(violations, status)
              == if status == 402 || exists i :: 0 <= i < |violations| && IsCostCode(violations[i].code) then 402
                 else if exists i :: 0 <= i < |violations| && IsRateCode(violations[i].code) then 429 else status
    decreases |violations|
  {
    if violations != [] {
      var rest := violations[1..];
      var first := violations[0].code;
      assert forall i :: 0 <= i < |rest| ==> rest[i] == violations[i + 1];
      assert forall i :: 1 <= i < |violations| ==> violations[i] == rest[i - 1];
      StatusScan(rest, if IsCostCode(first) then 402 else if IsRateCode(first) && status != 402 then 429 else status);
    }
  }

  /** Of the enforced findings the first about identity or access decides; without one, cost comes
      before rate, and anything else is unprocessable. */
  lemma StatusExactly(violations: seq<Violation>)
    ensures forall k :: 0 <= k < |violations| && Settles(violations[k].code) && (forall i :: 0 <= i < k ==> !Settles(violations[i].code))
              ==> StatusForViolations(violations) == if violations[k].code.AuthenticatedIdentityRequired? then 401 else 403
    ensures (forall i :: 0 <= i < |violations| ==> !Settles(violations[i].code)) ==>
              StatusForViolations(violations)
              == if exists i :: 0 <= i < |violations| && IsCostCode(violations[i].code) then 402
                 else if exists i :: 0 <= i < |violations| && IsRateCode(violations[i].code) then 429 else 422
  {
    StatusScan(violations, 422);
  }

  datatype Decision = Decision(denied: bool, status: int, rules: seq<RuleDecision>)

  function Decide(policy: Policy, context: Context, now: int, h: History, exact: bool): Decision
    requires ValidPolicy(policy)
  {
    var rules := ApplicableRules(policy, context);
    ApplicableValid(policy, context);
    var decisions := RuleDecisions(policy, rules, context, now, h, exact);
    var enforced := EnforcedViolations(decisions);
    Decision(enforced != [], if enforced != [] then StatusForViolations(enforced) else 0, decisions)
  }

  lemma ApplicableValid(policy: Policy, context: Context)
    requires ValidPolicy(policy)
    ensures forall i :: 0 <= i < |ApplicableRules(policy, context)| ==>
              ValidRule(policy, ApplicableRules(policy, context)[i])
  {
    forall i | 0 <= i < |ApplicableRules(policy, context)|
      ensures ValidRule(policy, ApplicableRules(policy, context)[i])
    {
      ApplicableMember(policy, context, ApplicableRules(policy, context)[i]);
    }
  }

  // ----- steps over the history -----

  predicate BadEstimate(context: Context) {
    context.estimatedInput < 0 || context.outputBound < 0 || context.estimatedCostUSD < 0.0
  }

  predicate Unrepresentable(context: Context) {
    context.costKnown && ConservativeCostMicroUSD(context).None?
  }

  function OrZero(amount: Option<int>): int {
    match amount
    case Some(n) => n
    case None => 0
  }

  function AdmissionUsage(context: Context): Usage {
    Usage(1, Max(context.estimatedInput, 0), OrZero(EstimatedTokensForKind(context, OutputKind)),
          OrZero(EstimatedTokensForKind(context, TotalKind)), OrZero(ConservativeCostMicroUSD(context)))
  }

  function CounterKeys(policy: Policy, context: Context): set<Key> {
    set rule | rule in ApplicableRules(policy, context) && HasCounters(rule) :: RuleKey(policy, rule)
  }

  function SlotKeys(policy: Policy, context: Context): set<Key> {
    set rule | rule in ApplicableRules(policy, context) && rule.limits.concurrency != 0 :: RuleKey(policy, rule)
  }

  function NewEntry(policy: Policy, context: Context, now: int): Entry {
    Entry(now, AdmissionUsage(context), CounterKeys(policy, context), SlotKeys(policy, context), Prepared)
  }

  /** One request, and as many tokens of each kind and micro-dollars as are known of it. */
  ghost predicate Measures(context: Context, usage: Usage) {
    usage.requests == 1
    && usage.input == (match EstimatedTokensForKind(context, InputKind) case Some(n) => n case None => 0)
    && usage.output == (match EstimatedTokensForKind(context, OutputKind) case Some(n) => n case None => 0)
    && usage.total == (match EstimatedTokensForKind(context, TotalKind) case Some(n) => n case None => 0)
    && usage.cost == (match ConservativeCostMicroUSD(context) case Some(n) => n case None => 0)
  }

  /** What a request that is let through leaves behind: its time and its measure, under the rules that
      apply and count or limit it. */
  ghost predicate Leaves(policy: Policy, context: Context, now: int, e: Entry) {
    e.ts == now && Measures(context, e.usage)
    && forall rule :: rule in policy.rules ==>
         (RuleKey(policy, rule) in e.counterKeys <==> Applies(policy, rule, context) && HasCounters(rule))
         && (RuleKey(policy, rule) in e.slotKeys <==> Applies(policy, rule, context) && rule.limits.concurrency != 0)
  }

  lemma EntryLeft(policy: Policy, context: Context, now: int)
    requires ValidPolicy(policy)
    ensures NewEntry(policy, context, now).status == Prepared
    ensures forall status :: Leaves(policy, context, now, NewEntry(policy, context, now).(status := status))
  {
    hide Applies, HasCounters, ConservativeCostMicroUSD, CounterKeys, SlotKeys, ValidPolicy;
    forall rule | rule in policy.rules
      ensures RuleKey(policy, rule) in CounterKeys(policy, context) <==> Applies(policy, rule, context) && HasCounters(rule)
      ensures RuleKey(policy, rule) in SlotKeys(policy, context) <==> Applies(policy, rule, context) && rule.limits.concurrency != 0
    {
      KeyApplies(policy, context, rule);
    }
  }

  /** One call on the engine. `policy` is the document active at that moment; `storeOk` is whether
      the store served the call. Commit, Cancel and Release name a reservation by its position. */
  datatype Step =
    | Prepare(now: int, context: Context, policy: Option<Policy>, storeOk: bool)
    | Commit(index: nat, storeOk: bool)
    | Cancel(index: nat)
    | Release(index: nat)

  /** Whether Prepare hands out a reservation. */
  predicate Admits(policy: Policy, context: Context, now: int, h: History)
    requires ValidPolicy(policy)
  {
    !BadEstimate(context) && !Unrepresentable(context) && !Decide(policy, context, now, h, false).denied
  }

  predicate ValidStep(s: Step) {
    s.Prepare? && s.policy.Some? ==> ValidPolicy(s.policy.value)
  }

  function WithStatus(h: History, index: nat, status: Status): (r: History)
    requires index < |h|
    ensures |r| == |h|
  {
    h[index := h[index].(status := status)]
  }

  function Next(h: History, s: Step): History
    requires ValidStep(s)
  {
    match s
    case Prepare(now, context, policy, storeOk) =>
      if policy.Some? && storeOk && Admits(policy.value, context, now, h)
      then h + [NewEntry(policy.value, context, now)] else h
    case Commit(index, storeOk) =>
      if index < |h| && h[index].status == Prepared
      then WithStatus(h, index, if storeOk then Committed else Dropped) else h
    case Cancel(index) =>
      if index < |h| && h[index].status == Prepared then WithStatus(h, index, Dropped) else h
    case Release(index) =>
      if index < |h| && h[index].status == Prepared then WithStatus(h, index, Dropped)
      else if index < |h| && h[index].status == Committed then WithStatus(h, index, Done)
      else h
  }

  function Run(steps: seq<Step>): History
    requires forall i :: 0 <= i < |steps| ==> ValidStep(steps[i])
  {
    if steps == [] then [] else Next(Run(steps[..|steps| - 1]), steps[|steps| - 1])
  }

  /** Every reservation is closed. */
  ghost predicate Quiescent(h: History) {
    forall i :: 0 <= i < |h| ==> h[i].status == Done || h[i].status == Dropped
  }

  lemma SameKeySameRule(policy: Policy, a: Rule, b: Rule)
    requires ValidPolicy(policy) && a in policy.rules && b in policy.rules
    requires RuleKey(policy, a) == RuleKey(policy, b)
    ensures a == b
  {
  }

  /** A rule's own key is among a request's keys exactly when the rule applies and has that limit. */
  lemma KeyApplies(policy: Policy, context: Context, rule: Rule)
    requires ValidPolicy(policy) && rule in policy.rules
    ensures RuleKey(policy, rule) in CounterKeys(policy, context) <==> Applies(policy, rule, context) && HasCounters(rule)
    ensures RuleKey(policy, rule) in SlotKeys(policy, context)
            <==> Applies(policy, rule, context) && rule.limits.concurrency != 0
  {
    hide Applies, ApplicableRules, ValidRule;
    ApplicableMember(policy, context, rule);
    forall r | r in ApplicableRules(policy, context) && RuleKey(policy, r) == RuleKey(policy, rule)
      ensures r == rule
    {
      ApplicableMember(policy, context, r);
      SameKeySameRule(policy, r, rule);
    }
  }

  // ----- sums over a history -----

  ghost predicate WellFormed(h: History) {
    forall i :: 0 <= i < |h| ==> NonNegative(h[i].usage)
  }

  lemma {:induction false} UsageNonNegative(h: History, span: Span, statuses: set<Status>, counter: Counter)
    requires WellFormed(h)
    ensures UsageIn(h, span, statuses, counter) >= 0
  {
    if h != [] {
      UsageNonNegative(h[..|h| - 1], span, statuses, counter);
    }
  }

  lemma {:induction false} UsageWidens(h: History, narrow: Span, wide: Span, few: set<Status>, many: set<Status>, counter: Counter)
    requires WellFormed(h)
    requires forall i :: 0 <= i < |h| && Covers(narrow, few, h[i]) ==> Covers(wide, many, h[i])
    ensures UsageIn(h, narrow, few, counter) <= UsageIn(h, wide, many, counter)
  {
    if h != [] {
      UsageWidens(h[..|h| - 1], narrow, wide, few, many, counter);
    }
  }

  lemma UsageAppend(h: History, e: Entry, span: Span, statuses: set<Status>, counter: Counter)
    ensures UsageIn(h + [e], span, statuses, counter)
            == UsageIn(h, span, statuses, counter) + (if Covers(span, statuses, e) then Amount(e.usage, counter) else 0)
  {
    assert (h + [e])[..|h|] == h;
  }

  /** Changing one entry's status moves exactly that entry's amount. */
  lemma {:induction false} UsageAfterStatus(h: History, index: nat, status: Status, span: Span, statuses: set<Status>, counter: Counter)
    requires index < |h|
    ensures UsageIn(WithStatus(h, index, status), span, statuses, counter)
            == UsageIn(h, span, statuses, counter)
               - (if Covers(span, statuses, h[index]) then Amount(h[index].usage, counter) else 0)
               + (if Covers(span, statuses, h[index].(status := status)) then Amount(h[index].usage, counter) else 0)
  {
    var n := |h| - 1;
    if index < n {
      UsageAfterStatus(h[..n], index, status, span, statuses, counter);
      assert WithStatus(h, index, status)[..n] == WithStatus(h[..n], index, status);
    } else {
      assert WithStatus(h, index, status)[..n] == h[..n];
    }
  }

  lemma SlotsAppend(h: History, e: Entry, key: Key)
    ensures SlotsHeld(h + [e], key)
            == SlotsHeld(h, key) + (if key in e.slotKeys && (e.status == Prepared || e.status == Committed) then 1 else 0)
  {
    assert (h + [e])[..|h|] == h;
  }

  predicate HoldsSlot(e: Entry, key: Key) {
    key in e.slotKeys && (e.status == Prepared || e.status == Committed)
  }

  lemma {:induction false} SlotsAfterStatus(h: History, index: nat, status: Status, key: Key)
    requires index < |h|
    ensures SlotsHeld(WithStatus(h, index, status), key)
            == SlotsHeld(h, key) - (if HoldsSlot(h[index], key) then 1 else 0)
               + (if HoldsSlot(h[index].(status := status), key) then 1 else 0)
  {
    var n := |h| - 1;
    if index < n {
      SlotsAfterStatus(h[..n], index, status, key);
      assert WithStatus(h, index, status)[..n] == WithStatus(h[..n], index, status);
    } else {
      assert WithStatus(h, index, status)[..n] == h[..n];
    }
  }

  lemma {:induction false} SlotsNonNegative(h: History, key: Key)
    ensures SlotsHeld(h, key) >= 0
    ensures SlotsHeld(h, key) == 0 <==> forall i :: 0 <= i < |h| ==> !HoldsSlot(h[i], key)
  {
    if h != [] {
      SlotsNonNegative(h[..|h| - 1], key);
    }
  }

  /** Durable and pending usage together are the live usage. */
  lemma {:induction false} UsageSplits(h: History, span: Span, counter: Counter)
    ensures UsageIn(h, span, DURABLE, counter) + UsageIn(h, span, PENDING, counter) == UsageIn(h, span, LIVE, counter)
  {
    if h != [] {
      UsageSplits(h[..|h| - 1], span, counter);
    }
  }

  // ----- denial means an enforcing rule is broken -----

  /** A rule finds something wrong. Requests recorded before output bounds were kept cannot be
      blamed for a missing one, so a replay drops that finding for them. */
  ghost predicate StaticBroken(rule: Rule, context: Context, boundKnown: bool) {
    exists v :: v in StaticViolations(rule, context) && (boundKnown || v.code != OutputBoundRequired)
  }

  ghost predicate Broken(policy: Policy, rule: Rule, context: Context, now: int, h: History, exact: bool, boundKnown: bool)
    requires ValidRule(policy, rule)
  {
    var key := RuleKey(policy, rule);
    StaticBroken(rule, context, boundKnown)
    || IdentityViolations(policy, rule, context) != []
    || (exists i :: 0 <= i < |rule.limits.requests| && RequestExceeded(rule.limits.requests[i], key, now, h, exact))
    || (exists i :: 0 <= i < |rule.limits.tokens| && TokenExceeded(rule.limits.tokens[i], context, key, now, h, exact))
    || (exists i :: 0 <= i < |rule.limits.dollars| && DollarObjects(rule.limits.dollars[i], context, key, now, h, exact))
    || SlotsExceeded(rule, key, h)
  }

  lemma {:induction false} RequestViolationsEmpty(limits: seq<WindowLimit>, key: Key, now: int, h: History, exact: bool)
    requires forall i :: 0 <= i < |limits| ==> limits[i].window > 0
    ensures RequestViolations(limits, key, now, h, exact) == []
            <==> forall i :: 0 <= i < |limits| ==> !RequestExceeded(limits[i], key, now, h, exact)
  {
    if limits != [] {
      RequestViolationsEmpty(limits[..|limits| - 1], key, now, h, exact);
    }
  }

  lemma {:induction false} TokenViolationsEmpty(limits: seq<WindowLimit>, context: Context, key: Key, now: int, h: History, exact: bool)
    requires forall i :: 0 <= i < |limits| ==> limits[i].window > 0
    ensures TokenViolations(limits, context, key, now, h, exact) == []
            <==> forall i :: 0 <= i < |limits| ==> !TokenExceeded(limits[i], context, key, now, h, exact)
  {
    if limits != [] {
      TokenViolationsEmpty(limits[..|limits| - 1], context, key, now, h, exact);
    }
  }

  lemma {:induction false} DollarViolationsEmpty(limits: seq<DollarLimit>, context: Context, key: Key, now: int, h: History, exact: bool)
    requires forall i :: 0 <= i < |limits| ==> limits[i].window > 0
    ensures DollarViolations(limits, context, key, now, h, exact) == []
            <==> forall i :: 0 <= i < |limits| ==> !DollarObjects(limits[i], context, key, now, h, exact)
  {
    if limits != [] {
      DollarViolationsEmpty(limits[..|limits| - 1], context, key, now, h, exact);
    }
  }

  lemma SortedEmpty(a: seq<Violation>, b: seq<Violation>, c: seq<Violation>, d: seq<Violation>, e: seq<Violation>, f: seq<Violation>)
    ensures StableSort(a + b + c + d + e + f, ViolationBefore) == []
            <==> a == [] && b == [] && c == [] && d == [] && e == [] && f == []
  {
    hide StableSort;
    assert |StableSort(a + b + c + d + e + f, ViolationBefore)| == |a| + |b| + |c| + |d| + |e| + |f|;
  }

  lemma ViolationsMeanBroken(policy: Policy, rule: Rule, context: Context, now: int, h: History, exact: bool)
    requires ValidRule(policy, rule)
    ensures RuleViolations(policy, rule, context, now, h, exact) != [] <==> Broken(policy, rule, context, now, h, exact, true)
  {
    hide StaticViolations, IdentityViolations, RequestViolations, TokenViolations, DollarViolations, StableSort;
    hide RequestExceeded, TokenExceeded, DollarObjects, SlotsExceeded, HasEffect, ValidDimension, EnforceableScope, RuleMode;
    var key := RuleKey(policy, rule);
    var found := StaticViolations(rule, context);
    var identity := IdentityViolations(policy, rule, context);
    var requests := RequestViolations(rule.limits.requests, key, now, h, exact);
    var tokens := TokenViolations(rule.limits.tokens, context, key, now, h, exact);
    var dollars := DollarViolations(rule.limits.dollars, context, key, now, h, exact);
    var slots := if SlotsExceeded(rule, key, h) then [Violation(ConcurrencyLimit, "concurrency", "")] else [];
    SortedEmpty(found, identity, requests, tokens, dollars, slots);
    RequestViolationsEmpty(rule.limits.requests, key, now, h, exact);
    TokenViolationsEmpty(rule.limits.tokens, context, key, now, h, exact);
    DollarViolationsEmpty(rule.limits.dollars, context, key, now, h, exact);
    assert found != [] <==> StaticBroken(rule, context, true) by {
      if found != [] { assert found[0] in found; }
    }
  }

  lemma {:induction false} EnforcedEmpty(decisions: seq<RuleDecision>)
    ensures EnforcedViolations(decisions) == []
            <==> forall i :: 0 <= i < |decisions| && decisions[i].mode == Enforce ==> decisions[i].violations == []
  {
    if decisions != [] {
      var n := |decisions| - 1;
      EnforcedEmpty(decisions[..n]);
      assert forall i :: 0 <= i < n ==> decisions[..n][i] == decisions[i];
      if decisions[n].mode == Enforce && decisions[n].violations != [] {
        assert EnforcedViolations(decisions)[|EnforcedViolations(decisions)| - 1] in decisions[n].violations;
      }
    }
  }

  /** A request is denied exactly when some applicable enforcing rule is broken; the order in which
      rules are evaluated and explained plays no part. */
  lemma DeniedIffBroken(policy: Policy, context: Context, now: int, h: History, exact: bool)
    requires ValidPolicy(policy)
    ensures Decide(policy, context, now, h, exact).denied
            <==> exists rule :: rule in policy.rules && Applies(policy, rule, context)
                                && RuleMode(policy, rule) == Enforce && Broken(policy, rule, context, now, h, exact, true)
  {
    hide RuleViolations, Broken, Applies, ApplicableRules, ValidRule, StatusForViolations, Specificity;
    var rules := ApplicableRules(policy, context);
    ApplicableValid(policy, context);
    var decisions := RuleDecisions(policy, rules, context, now, h, exact);
    EnforcedEmpty(decisions);
    forall i | 0 <= i < |rules|
      ensures decisions[i].violations != [] <==> Broken(policy, rules[i], context, now, h, exact, true)
      ensures rules[i] in policy.rules && Applies(policy, rules[i], context)
    {
      ViolationsMeanBroken(policy, rules[i], context, now, h, exact);
      ApplicableMember(policy, context, rules[i]);
    }
    if rule :| rule in policy.rules && Applies(policy, rule, context)
               && RuleMode(policy, rule) == Enforce && Broken(policy, rule, context, now, h, exact, true) {
      ApplicableMember(policy, context, rule);
      var i :| 0 <= i < |rules| && rules[i] == rule;
      assert decisions[i].violations != [];
    }
  }
}
