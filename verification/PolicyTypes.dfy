/** Policy documents, request contexts, and the estimates a request is admitted on. */
module PolicyTypes {
  import opened Common

  datatype Mode = Observe | Warn | Enforce

  /** The 21 label dimensions of a scope; the first eleven name an identity. */
  datatype Dimension =
    | Organization | Tenant | Meter | Device | Team | CostCenter | Principal
    | ServiceAccount | User | Project | Environment
    | Agent | Session | Provider | Model | ModelClass | Route | Tier | ServiceTier | Geo | InferenceGeo

  predicate IsIdentity(d: Dimension) {
    d.Organization? || d.Tenant? || d.Meter? || d.Device? || d.Team? || d.CostCenter? || d.Principal?
    || d.ServiceAccount? || d.User? || d.Project? || d.Environment?
  }

  /** Labels the caller supplies and nobody authenticates. */
  predicate IsCooperative(d: Dimension) {
    d.Agent? || d.Session? || d.ModelClass?
  }

  datatype Access = Access(allow: seq<string>, deny: seq<string>)

  datatype WindowType = Rolling | Fixed

  datatype TokenKind = Unspecified | InputKind | OutputKind | TotalKind

  /** `window` is the parsed duration in nanoseconds. */
  datatype WindowLimit = WindowLimit(id: string, max: int, window: int, windowType: WindowType, kind: TokenKind)

  datatype LimitKind = RequestWindow | TokenWindow | DollarWindow

  /** One limit of one rule. */
  datatype WindowKey = WindowKey(ruleID: string, kind: LimitKind, limitID: string)

  datatype DollarLimit = DollarLimit(id: string, maxMicroUSD: int, window: int, windowType: WindowType)

  datatype Limits = Limits(
    requests: seq<WindowLimit>,
    tokens: seq<WindowLimit>,
    dollars: seq<DollarLimit>,
    concurrency: int,
    maxCallCostUSD: Option<real>,
    requireOutputBound: bool)

  /** A dimension missing from `scope` or `access` is an empty list there. */
  datatype Rule = Rule(
    id: string,
    mode: Option<Mode>,
    scope: map<Dimension, seq<string>>,
    access: map<Dimension, Access>,
    limits: Limits)

  datatype Policy = Policy(namespace: string, mode: Mode, rules: seq<Rule>)

  /** A label or a confidence missing from its map is the empty string. */
  datatype Context = Context(
    labels: map<Dimension, string>,
    confidence: map<Dimension, string>,
    estimatedInput: int,
    outputBound: int,
    outputBoundPresent: bool,
    estimatedCostUSD: real,
    estimatedCostMicroUSD: int,
    costKnown: bool)

  function Selectors(rule: Rule, d: Dimension): seq<string> {
    if d in rule.scope then rule.scope[d] else []
  }

  function AccessOf(rule: Rule, d: Dimension): Access {
    if d in rule.access then rule.access[d] else Access([], [])
  }

  function Label(context: Context, d: Dimension): string {
    if d in context.labels then context.labels[d] else ""
  }

  function RuleMode(policy: Policy, rule: Rule): Mode {
    match rule.mode
    case Some(m) => m
    case None => policy.mode
  }

  predicate HasCounters(rule: Rule) {
    rule.limits.requests != [] || rule.limits.tokens != [] || rule.limits.dollars != []
  }

  // ----- what validation accepts -----

  const SECOND: int := 1_000_000_000
  const LONGEST_WINDOW: int := 8784 * 3600 * SECOND

  predicate ValidWindow(window: int) {
    SECOND <= window <= LONGEST_WINDOW
  }

  predicate ValidWindowLimits(limits: seq<WindowLimit>) {
    |limits| <= 64
    && (forall i :: 0 <= i < |limits| ==> 1 <= limits[i].max <= MAX_INT64 && ValidWindow(limits[i].window))
    && (forall i, j :: 0 <= i < j < |limits| ==> limits[i].id != limits[j].id)
  }

  predicate ValidDollarLimits(limits: seq<DollarLimit>) {
    |limits| <= 64
    && (forall i :: 0 <= i < |limits| ==>
          1 <= limits[i].maxMicroUSD <= 1_000_000_000_000_000_000 && ValidWindow(limits[i].window))
    && (forall i, j :: 0 <= i < j < |limits| ==> limits[i].id != limits[j].id)
  }

  /** An enforcing rule may not depend on a label nobody authenticates. */
  predicate EnforceableScope(rule: Rule) {
    Selectors(rule, Agent) == [] && Selectors(rule, Session) == [] && Selectors(rule, ModelClass) == []
    && AccessOf(rule, ModelClass) == Access([], [])
  }

  predicate ValidSelectors(selectors: seq<string>) {
    |selectors| <= 64 && forall i, j :: 0 <= i < j < |selectors| ==> selectors[i] != selectors[j]
  }

  predicate ValidDimension(rule: Rule, d: Dimension) {
    ValidSelectors(Selectors(rule, d)) && ValidSelectors(AccessOf(rule, d).allow) && ValidSelectors(AccessOf(rule, d).deny)
  }

  predicate Restricts(rule: Rule, d: Dimension) { AccessOf(rule, d).allow != [] || AccessOf(rule, d).deny != [] }

  /** A rule has to restrict something. */
  predicate HasEffect(rule: Rule) {
    (exists d: Dimension :: Restricts(rule, d)) || HasCounters(rule) || rule.limits.concurrency != 0
    || rule.limits.maxCallCostUSD.Some? || rule.limits.requireOutputBound
  }

  predicate ValidRule(policy: Policy, rule: Rule) {
    HasEffect(rule) && (forall d: Dimension :: ValidDimension(rule, d))
    && (RuleMode(policy, rule) == Enforce ==> EnforceableScope(rule))
    && 0 <= rule.limits.concurrency <= MAX_INT64
    && (rule.limits.maxCallCostUSD.Some? ==> 0.0 <= rule.limits.maxCallCostUSD.value <= 1000000000000.0)
    && ValidWindowLimits(rule.limits.requests)
    && (forall i :: 0 <= i < |rule.limits.requests| ==> rule.limits.requests[i].kind == Unspecified)
    && ValidWindowLimits(rule.limits.tokens)
    && ValidDollarLimits(rule.limits.dollars)
  }

  const MAX_WINDOW_LIMITS: int := 256

  function LimitCount(rule: Rule): nat { |rule.limits.requests| + |rule.limits.tokens| + |rule.limits.dollars| }

  function WindowLimits(rules: seq<Rule>): nat {
    if rules == [] then 0 else WindowLimits(rules[..|rules| - 1]) + LimitCount(rules[|rules| - 1])
  }

  predicate ValidPolicy(policy: Policy) {
    0 < |policy.rules| <= 256
    && WindowLimits(policy.rules) <= MAX_WINDOW_LIMITS
    && (forall i, j :: 0 <= i < j < |policy.rules| ==> policy.rules[i].id != policy.rules[j].id)
    && (forall i :: 0 <= i < |policy.rules| ==> ValidRule(policy, policy.rules[i]))
  }

  // ----- admission estimates -----

  function EstimatedTokens(context: Context): int {
    var input := Max(context.estimatedInput, 0);
    var output := if context.outputBoundPresent then Max(context.outputBound, 0) else 0;
    if input > MAX_INT64 - output then MAX_INT64 else input + output
  }

  /** None when the request declares no output bound and the kind needs one. */
  function EstimatedTokensForKind(context: Context, kind: TokenKind): Option<int> {
    match kind
    case InputKind => Some(Max(context.estimatedInput, 0))
    case OutputKind => if context.outputBoundPresent then Some(Max(context.outputBound, 0)) else None
    case _ => if context.outputBoundPresent then Some(EstimatedTokens(context)) else None
  }

  /** Rounds up, so a reservation never covers less than the dollar estimate. */
  function MicroUSDFromUSD(value: real): (r: Option<int>)
    ensures r.Some? ==> 0 <= r.value <= MAX_INT64
    ensures r.Some? ==> r.value as real - 1.0 < value * 1000000.0 <= r.value as real
    ensures r.None? <==> value < 0.0 || value * 1000000.0 > MAX_INT64 as real
  {
    if value < 0.0 || value > MAX_INT64 as real / 1000000.0 then None
    else Some(Ceiling(value * 1000000.0))
  }

  function ConservativeCostMicroUSD(context: Context): (r: Option<int>)
    ensures r.Some? ==> context.costKnown && context.estimatedCostUSD >= 0.0
                        && r.value as real >= context.estimatedCostUSD * 1000000.0 && r.value >= 0
  {
    if !context.costKnown || context.estimatedCostMicroUSD < 0 then None
    else
      match MicroUSDFromUSD(context.estimatedCostUSD)
      case None => None
      case Some(minimum) =>
        if context.estimatedCostMicroUSD == 0 then Some(minimum)
        else if context.estimatedCostMicroUSD < minimum then None
        else Some(context.estimatedCostMicroUSD)
  }

  /** Estimates that fit the machine's integers, as a request parser produces them. */
  predicate MachineContext(context: Context) {
    -MAX_INT64 - 1 <= context.estimatedInput <= MAX_INT64
    && -MAX_INT64 - 1 <= context.outputBound <= MAX_INT64
    && -MAX_INT64 - 1 <= context.estimatedCostMicroUSD <= MAX_INT64
  }

  // ----- windows -----

  /** First instant a window that ends at `now` still covers (times are non-negative nanoseconds). */
  function WindowStart(now: int, window: int, kind: WindowType): int
    requires window > 0
  {
    if kind == Rolling then now - window else now - now % window
  }

  /** The cutoff never moves back, never passes `now`, and keeps at most one duration in view. */
  lemma WindowStartMonotone(early: int, late: int, window: int, kind: WindowType)
    requires 0 <= early <= late && window > 0
    ensures WindowStart(early, window, kind) <= WindowStart(late, window, kind)
    ensures late - window <= WindowStart(late, window, kind) <= late
  {
    if kind == Fixed {
      assert early == window * (early / window) + early % window;
      assert late == window * (late / window) + late % window;
      QuotientMonotone(early, late, window);
      ProductMonotone(early / window, late / window, window);
    }
  }

  lemma QuotientMonotone(a: int, b: int, d: int)
    requires 0 <= a <= b && d > 0
    ensures a / d <= b / d
  {
    if a / d > b / d {
      ProductMonotone(b / d + 1, a / d, d);
    }
  }
}
