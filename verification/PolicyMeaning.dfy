/** What a policy decision means, said without the functions that compute it: what an estimate is,
    which entries a window covers, what makes a rule find each kind of fault, and how much the
    requests that were let through asked for. */
module PolicyMeaning {
  import opened Common
  import opened PolicyTypes
  import opened Admission
  import opened WindowSafety
  import opened Sorting
  import Noninterference
  import Wildcard

  // ----- estimates -----

  /** Negative inputs count as none; a kind that includes output is known only under a declared
      bound; a total past the machine's range sticks at its top. */
  lemma EstimatesExactly(context: Context)
    requires context.estimatedInput <= MAX_INT64 && context.outputBound <= MAX_INT64
    ensures var input := EstimatedTokensForKind(context, InputKind);
            input.Some? && input.value >= 0 && input.value >= context.estimatedInput && (input.value == 0 || input.value == context.estimatedInput)
    ensures forall kind: TokenKind :: kind != InputKind ==> (EstimatedTokensForKind(context, kind).Some? <==> context.outputBoundPresent)
    ensures context.outputBoundPresent ==>
              var output := EstimatedTokensForKind(context, OutputKind).value;
              output >= 0 && output >= context.outputBound && (output == 0 || output == context.outputBound)
    ensures context.outputBoundPresent ==>
              var input, output := EstimatedTokensForKind(context, InputKind).value, EstimatedTokensForKind(context, OutputKind).value;
              EstimatedTokensForKind(context, TotalKind) == EstimatedTokensForKind(context, Unspecified)
              == Some(if input + output <= MAX_INT64 then input + output else MAX_INT64)
  {
  }

  /** A cost is usable when it is known, not negative, representable, and stated no lower than the
      dollar estimate; unstated, it is the least whole millionth that covers the estimate. */
  lemma CostExactly(context: Context, c: int)
    ensures ConservativeCostMicroUSD(context) == Some(c)
            <==> context.costKnown && 0.0 <= context.estimatedCostUSD * 1000000.0 <= MAX_INT64 as real
                 && if context.estimatedCostMicroUSD == 0
                    then c as real - 1.0 < context.estimatedCostUSD * 1000000.0 <= c as real
                    else c == context.estimatedCostMicroUSD > 0 && context.estimatedCostUSD * 1000000.0 <= c as real
  {
    if context.estimatedCostMicroUSD == 0 && MicroUSDFromUSD(context.estimatedCostUSD).Some? {
      var least := MicroUSDFromUSD(context.estimatedCostUSD).value;
      OneCeiling(context.estimatedCostUSD * 1000000.0, least, c);
    }
  }

  lemma OneCeiling(x: real, a: int, b: int)
    requires a as real - 1.0 < x <= a as real
    ensures b as real - 1.0 < x <= b as real <==> a == b
  {
    if b as real - 1.0 < x <= b as real {
      assert (a - 1) as real < b as real && (b - 1) as real < a as real;
    }
  }

  /** A rolling window covers what is no older than its duration; a fixed one the slot of `now`. */
  lemma WindowStartExactly(now: int, ts: int, window: int, kind: WindowType)
    requires window > 0 && ts <= now
    ensures WindowStart(now, window, kind) <= ts <==> if kind == Rolling then now - ts <= window else ts / window == now / window
  {
    if kind == Fixed {
      var q, r := now / window, ts / window;
      assert now == q * window + now % window && ts == r * window + ts % window;
      if r < q {
        ProductMonotone(r + 1, q, window);
        assert (r + 1) * window == r * window + window;
      } else if r > q {
        ProductMonotone(q + 1, r, window);
      }
    }
  }

  // ----- what makes a rule find a fault -----

  predicate IsMatchDimension(d: Dimension) { !IsIdentity(d) && !d.Agent? && !d.Session? }

  ghost predicate Names(patterns: seq<string>, value: string) {
    exists i :: 0 <= i < |patterns| && Wildcard.Selects(patterns[i], value)
  }

  /** What the engine's counters show of a window: the sum over requests not given back, or the top
      of int64 when the sum passes it. */
  function Shown(h: History, key: Key, since: int, counter: Counter, exact: bool): int {
    var sum := UsageIn(h, Span(key, since, None), {Prepared, Committed, Done}, counter);
    if !exact && sum > MAX_INT64 then MAX_INT64 else sum
  }

  ghost predicate IdentityUnproven(policy: Policy, rule: Rule, context: Context) {
    RuleMode(policy, rule) == Enforce
    && exists d: Dimension :: IsIdentity(d) && Selectors(rule, d) != []
         && (d in context.confidence ==> context.confidence[d] != "authenticated" && context.confidence[d] != "not_identity")
  }

  ghost predicate LabelDenied(rule: Rule, context: Context) {
    exists d: Dimension :: IsMatchDimension(d) && Names(AccessOf(rule, d).deny, Label(context, d))
  }

  ghost predicate LabelOutside(rule: Rule, context: Context) {
    exists d: Dimension :: IsMatchDimension(d) && !Names(AccessOf(rule, d).deny, Label(context, d))
      && AccessOf(rule, d).allow != [] && !Names(AccessOf(rule, d).allow, Label(context, d))
  }

  ghost predicate BoundMissing(rule: Rule, context: Context) {
    !context.outputBoundPresent
    && (rule.limits.requireOutputBound || exists i :: 0 <= i < |rule.limits.tokens| && rule.limits.tokens[i].kind != InputKind)
  }

  ghost predicate CallTooDear(rule: Rule, context: Context) {
    rule.limits.maxCallCostUSD.Some? && context.costKnown && context.estimatedCostUSD > rule.limits.maxCallCostUSD.value
  }

  /** Why a rule objects to a request, kind by kind. */
  ghost predicate Cause(policy: Policy, rule: Rule, context: Context, now: int, h: History, exact: bool, code: Code)
    requires ValidRule(policy, rule)
  {
    var key := Key(policy.namespace, rule.id);
    match code
    case AuthenticatedIdentityRequired => IdentityUnproven(policy, rule, context)
    case DenyMatch => LabelDenied(rule, context)
    case NotAllowed => LabelOutside(rule, context)
    case OutputBoundRequired => BoundMissing(rule, context)
    case EstimatedCostUnknown =>
      (rule.limits.maxCallCostUSD.Some? && !context.costKnown)
      || (rule.limits.dollars != [] && ConservativeCostMicroUSD(context).None?)
    case MaxEstimatedCallCost => CallTooDear(rule, context)
    case RequestLimit =>
      exists i :: 0 <= i < |rule.limits.requests| && RequestsFull(rule.limits.requests[i], key, now, h, exact)
    case TokenLimit =>
      exists i :: 0 <= i < |rule.limits.tokens| && TokensFull(rule.limits.tokens[i], context, key, now, h, exact)
    case DollarLimitReached =>
      exists i :: 0 <= i < |rule.limits.dollars| && DollarsFull(rule.limits.dollars[i], context, key, now, h, exact)
    case ConcurrencyLimit => rule.limits.concurrency > 0 && SlotsHeld(h, key) + 1 > rule.limits.concurrency
  }

  /** One more request would pass the limit. */
  ghost predicate RequestsFull(limit: WindowLimit, key: Key, now: int, h: History, exact: bool)
    requires limit.window > 0
  {
    Shown(h, key, WindowStart(now, limit.window, limit.windowType), Requests, exact) + 1 > limit.max
  }

  /** So would the tokens of the limit's kind that this one asks for. */
  ghost predicate TokensFull(limit: WindowLimit, context: Context, key: Key, now: int, h: History, exact: bool)
    requires limit.window > 0
  {
    var counter := match limit.kind case InputKind => Input case OutputKind => Output case _ => Total;
    EstimatedTokensForKind(context, limit.kind).Some?
    && Shown(h, key, WindowStart(now, limit.window, limit.windowType), counter, exact) + EstimatedTokensForKind(context, limit.kind).value > limit.max
  }

  ghost predicate DollarsFull(limit: DollarLimit, context: Context, key: Key, now: int, h: History, exact: bool)
    requires limit.window > 0
  {
    ConservativeCostMicroUSD(context).Some?
    && Shown(h, key, WindowStart(now, limit.window, limit.windowType), Cost, exact) + ConservativeCostMicroUSD(context).value > limit.maxMicroUSD
  }

  ghost predicate HasCode(found: seq<Violation>, code: Code) {
    exists v :: v in found && v.code == code
  }

  lemma HasCodeConcat(a: seq<Violation>, b: seq<Violation>, code: Code)
    ensures HasCode(a + b, code) <==> HasCode(a, code) || HasCode(b, code)
  {
  }

  lemma HasCodeSorted(found: seq<Violation>, code: Code)
    ensures HasCode(StableSort(found, ViolationBefore), code) <==> HasCode(found, code)
  {
    hide StableSort;
    forall v ensures v in StableSort(found, ViolationBefore) <==> v in found {
      SameMembers(found, ViolationBefore, v);
    }
  }

  lemma HasCodeOne(v: Violation, code: Code)
    ensures HasCode([v], code) <==> v.code == code
    ensures !HasCode([], code)
  {
    assert v in [v];
  }

  lemma {:induction false} AccessCodes(rule: Rule, context: Context, dimensions: seq<Dimension>, code: Code)
    ensures HasCode(AccessViolations(rule, context, dimensions), code)
            <==> exists i :: 0 <= i < |dimensions|
                   && ((code == DenyMatch && DenySelected(rule, context, dimensions[i]))
                       || (code == NotAllowed && !DenySelected(rule, context, dimensions[i]) && OutsideAllow(rule, context, dimensions[i])))
  {
    hide DenySelected, OutsideAllow;
    if dimensions == [] {
      HasCodeOne(Violation(code, "", ""), code);
    } else {
      var n := |dimensions| - 1;
      var d := dimensions[n];
      AccessCodes(rule, context, dimensions[..n], code);
      assert forall i :: 0 <= i < n ==> dimensions[..n][i] == dimensions[i];
      var last := if DenySelected(rule, context, d) then [Violation(DenyMatch, DimensionName(d), "")]
                  else if OutsideAllow(rule, context, d) then [Violation(NotAllowed, DimensionName(d), "")]
                  else [];
      HasCodeConcat(AccessViolations(rule, context, dimensions[..n]), last, code);
      HasCodeOne(Violation(DenyMatch, DimensionName(d), ""), code);
      HasCodeOne(Violation(NotAllowed, DimensionName(d), ""), code);
    }
  }

  lemma MatchDimensionsListed(d: Dimension)
    ensures IsMatchDimension(d) <==> exists i :: 0 <= i < |MATCH_DIMENSIONS| && MATCH_DIMENSIONS[i] == d
  {
    assert IsMatchDimension(d) ==> d in MATCH_DIMENSIONS;
  }

  lemma AccessMeans(rule: Rule, context: Context, code: Code)
    ensures HasCode(AccessViolations(rule, context, MATCH_DIMENSIONS), code)
            <==> (code == DenyMatch && LabelDenied(rule, context)) || (code == NotAllowed && LabelOutside(rule, context))
  {
    hide AccessViolations;
    AccessCodes(rule, context, MATCH_DIMENSIONS, code);
    forall d: Dimension
      ensures IsMatchDimension(d) <==> exists i :: 0 <= i < |MATCH_DIMENSIONS| && MATCH_DIMENSIONS[i] == d
      ensures DenySelected(rule, context, d) <==> Names(AccessOf(rule, d).deny, Label(context, d))
      ensures OutsideAllow(rule, context, d) <==> AccessOf(rule, d).allow != [] && !Names(AccessOf(rule, d).allow, Label(context, d))
    {
      MatchDimensionsListed(d);
    }
  }

  lemma ShownIsCurrent(h: History, key: Key, since: int, counter: Counter, exact: bool)
    ensures Shown(h, key, since, counter, exact) == Current(h, key, since, counter, exact)
  {
  }

  lemma {:induction false} RequestCodes(limits: seq<WindowLimit>, key: Key, now: int, h: History, exact: bool, code: Code)
    requires forall i :: 0 <= i < |limits| ==> limits[i].window > 0
    ensures HasCode(RequestViolations(limits, key, now, h, exact), code)
            <==> code == RequestLimit && exists i :: 0 <= i < |limits| && RequestsFull(limits[i], key, now, h, exact)
  {
    hide Current, Shown, WindowStart;
    if limits == [] {
      HasCodeOne(Violation(code, "", ""), code);
    } else {
      var n := |limits| - 1;
      RequestCodes(limits[..n], key, now, h, exact, code);
      assert forall i :: 0 <= i < n ==> limits[..n][i] == limits[i];
      ShownIsCurrent(h, key, WindowStart(now, limits[n].window, limits[n].windowType), Requests, exact);
      var v := Violation(RequestLimit, "requests", limits[n].id);
      HasCodeOne(v, code);
      HasCodeConcat(RequestViolations(limits[..n], key, now, h, exact), if RequestExceeded(limits[n], key, now, h, exact) then [v] else [], code);
    }
  }

  lemma {:induction false} TokenCodes(limits: seq<WindowLimit>, context: Context, key: Key, now: int, h: History, exact: bool, code: Code)
    requires forall i :: 0 <= i < |limits| ==> limits[i].window > 0
    ensures HasCode(TokenViolations(limits, context, key, now, h, exact), code)
            <==> code == TokenLimit && exists i :: 0 <= i < |limits| && TokensFull(limits[i], context, key, now, h, exact)
  {
    hide Current, Shown, WindowStart, EstimatedTokensForKind;
    if limits == [] {
      HasCodeOne(Violation(code, "", ""), code);
    } else {
      var n := |limits| - 1;
      TokenCodes(limits[..n], context, key, now, h, exact, code);
      assert forall i :: 0 <= i < n ==> limits[..n][i] == limits[i];
      ShownIsCurrent(h, key, WindowStart(now, limits[n].window, limits[n].windowType), KindCounter(limits[n].kind), exact);
      var v := Violation(TokenLimit, KindName(limits[n].kind), limits[n].id);
      HasCodeOne(v, code);
      HasCodeConcat(TokenViolations(limits[..n], context, key, now, h, exact),
                    if TokenExceeded(limits[n], context, key, now, h, exact) then [v] else [], code);
    }
  }

  lemma {:induction false} DollarCodes(limits: seq<DollarLimit>, context: Context, key: Key, now: int, h: History, exact: bool, code: Code)
    requires forall i :: 0 <= i < |limits| ==> limits[i].window > 0
    ensures HasCode(DollarViolations(limits, context, key, now, h, exact), code)
            <==> (code == DollarLimitReached && exists i :: 0 <= i < |limits| && DollarsFull(limits[i], context, key, now, h, exact))
                 || (code == EstimatedCostUnknown && limits != [] && ConservativeCostMicroUSD(context).None?)
  {
    hide Current, Shown, WindowStart, ConservativeCostMicroUSD;
    if limits == [] {
      HasCodeOne(Violation(code, "", ""), code);
    } else {
      var n := |limits| - 1;
      var cost := ConservativeCostMicroUSD(context);
      DollarCodes(limits[..n], context, key, now, h, exact, code);
      assert forall i :: 0 <= i < n ==> limits[..n][i] == limits[i];
      ShownIsCurrent(h, key, WindowStart(now, limits[n].window, limits[n].windowType), Cost, exact);
      var unknown, reached := Violation(EstimatedCostUnknown, "dollars", limits[n].id), Violation(DollarLimitReached, "dollars", limits[n].id);
      HasCodeOne(unknown, code);
      HasCodeOne(reached, code);
      HasCodeConcat(DollarViolations(limits[..n], context, key, now, h, exact),
                    if cost.None? then [unknown] else if DollarExceeded(limits[n], cost.value, key, now, h, exact) then [reached] else [], code);
    }
  }

  lemma IdentityMeans(policy: Policy, rule: Rule, context: Context, code: Code)
    ensures HasCode(IdentityViolations(policy, rule, context), code)
            <==> code == AuthenticatedIdentityRequired && IdentityUnproven(policy, rule, context)
  {
    hide RuleMode, HasCode, IdentityUnproven, IdentityScopeAuthenticated;
    HasCodeOne(Violation(AuthenticatedIdentityRequired, "identity", ""), code);
    UnprovenScope(policy, rule, context);
  }

  function BoundFindings(rule: Rule, context: Context): seq<Violation> {
    if NeedsOutputBound(rule) && !context.outputBoundPresent then [Violation(OutputBoundRequired, "output_tokens", "")] else []
  }

  function CostFindings(rule: Rule, context: Context): seq<Violation> {
    if rule.limits.maxCallCostUSD.None? then []
    else if !context.costKnown then [Violation(EstimatedCostUnknown, "cost", "")]
    else if context.estimatedCostUSD > rule.limits.maxCallCostUSD.value then [Violation(MaxEstimatedCallCost, "cost", "")] else []
  }

  lemma BoundMeans(rule: Rule, context: Context, code: Code)
    ensures HasCode(BoundFindings(rule, context), code) <==> code == OutputBoundRequired && BoundMissing(rule, context)
  {
    hide HasCode;
    HasCodeOne(Violation(OutputBoundRequired, "output_tokens", ""), code);
  }

  lemma CostMeans(rule: Rule, context: Context, code: Code)
    ensures HasCode(CostFindings(rule, context), code)
            <==> (code == EstimatedCostUnknown && rule.limits.maxCallCostUSD.Some? && !context.costKnown)
                 || (code == MaxEstimatedCallCost && CallTooDear(rule, context))
  {
    hide HasCode;
    HasCodeOne(Violation(EstimatedCostUnknown, "cost", ""), code);
    HasCodeOne(Violation(MaxEstimatedCallCost, "cost", ""), code);
  }

  lemma StaticInParts(rule: Rule, context: Context)
    ensures StaticViolations(rule, context)
            == StableSort(AccessViolations(rule, context, MATCH_DIMENSIONS) + BoundFindings(rule, context) + CostFindings(rule, context), ViolationBefore)
  {
    hide AccessViolations, StableSort, NeedsOutputBound;
  }

  lemma StaticMeans(rule: Rule, context: Context, code: Code)
    ensures HasCode(StaticViolations(rule, context), code)
            <==> (code == DenyMatch && LabelDenied(rule, context)) || (code == NotAllowed && LabelOutside(rule, context))
                 || (code == OutputBoundRequired && BoundMissing(rule, context))
                 || (code == EstimatedCostUnknown && rule.limits.maxCallCostUSD.Some? && !context.costKnown)
                 || (code == MaxEstimatedCallCost && CallTooDear(rule, context))
  {
    hide *;
    var access := AccessViolations(rule, context, MATCH_DIMENSIONS);
    StaticInParts(rule, context);
    AccessMeans(rule, context, code);
    BoundMeans(rule, context, code);
    CostMeans(rule, context, code);
    HasCodeConcat(access, BoundFindings(rule, context), code);
    HasCodeConcat(access + BoundFindings(rule, context), CostFindings(rule, context), code);
    HasCodeSorted(access + BoundFindings(rule, context) + CostFindings(rule, context), code);
  }

  /** A rule reports a fault of each kind exactly when that fault's cause is there. */
  lemma FindingsExactly(policy: Policy, rule: Rule, context: Context, now: int, h: History, exact: bool, code: Code)
    requires ValidRule(policy, rule)
    ensures HasCode(RuleViolations(policy, rule, context, now, h, exact), code) <==> Cause(policy, rule, context, now, h, exact, code)
  {
    hide RuleViolations, StaticViolations, IdentityViolations, RequestViolations, TokenViolations, DollarViolations, SlotFindings, StableSort, HasCode;
    hide RequestsFull, TokensFull, DollarsFull, IdentityUnproven, LabelDenied, LabelOutside, BoundMissing, CallTooDear;
    hide HasEffect, ValidDimension, EnforceableScope, RuleMode;
    var key := RuleKey(policy, rule);
    StaticMeans(rule, context, code);
    IdentityMeans(policy, rule, context, code);
    RequestCodes(rule.limits.requests, key, now, h, exact, code);
    TokenCodes(rule.limits.tokens, context, key, now, h, exact, code);
    DollarCodes(rule.limits.dollars, context, key, now, h, exact, code);
    SlotMeans(rule, key, h, code);
    RuleInParts(policy, rule, context, now, h, exact);
    HasCodeSix(StaticViolations(rule, context), IdentityViolations(policy, rule, context), RequestViolations(rule.limits.requests, key, now, h, exact),
               TokenViolations(rule.limits.tokens, context, key, now, h, exact), DollarViolations(rule.limits.dollars, context, key, now, h, exact),
               SlotFindings(rule, key, h), code);
  }

  function SlotFindings(rule: Rule, key: Key, h: History): seq<Violation> {
    if SlotsExceeded(rule, key, h) then [Violation(ConcurrencyLimit, "concurrency", "")] else []
  }

  lemma SlotMeans(rule: Rule, key: Key, h: History, code: Code)
    ensures HasCode(SlotFindings(rule, key, h), code)
            <==> code == ConcurrencyLimit && rule.limits.concurrency > 0 && SlotsHeld(h, key) + 1 > rule.limits.concurrency
  {
    hide HasCode, SlotsHeld;
    HasCodeOne(Violation(ConcurrencyLimit, "concurrency", ""), code);
  }

  lemma RuleInParts(policy: Policy, rule: Rule, context: Context, now: int, h: History, exact: bool)
    requires ValidRule(policy, rule)
    ensures var key := RuleKey(policy, rule);
            RuleViolations(policy, rule, context, now, h, exact)
            == StableSort(StaticViolations(rule, context) + IdentityViolations(policy, rule, context)
                          + RequestViolations(rule.limits.requests, key, now, h, exact)
                          + TokenViolations(rule.limits.tokens, context, key, now, h, exact)
                          + DollarViolations(rule.limits.dollars, context, key, now, h, exact) + SlotFindings(rule, key, h), ViolationBefore)
  {
    hide StaticViolations, IdentityViolations, RequestViolations, TokenViolations, DollarViolations, StableSort, SlotsExceeded;
  }

  lemma HasCodeSix(a: seq<Violation>, b: seq<Violation>, c: seq<Violation>, d: seq<Violation>, e: seq<Violation>, f: seq<Violation>, code: Code)
    ensures HasCode(StableSort(a + b + c + d + e + f, ViolationBefore), code)
            <==> HasCode(a, code) || HasCode(b, code) || HasCode(c, code) || HasCode(d, code) || HasCode(e, code) || HasCode(f, code)
  {
    hide StableSort, HasCode;
    HasCodeConcat(a, b, code);
    HasCodeConcat(a + b, c, code);
    HasCodeConcat(a + b + c, d, code);
    HasCodeConcat(a + b + c + d, e, code);
    HasCodeConcat(a + b + c + d + e, f, code);
    HasCodeSorted(a + b + c + d + e + f, code);
  }

  lemma SomeCode(found: seq<Violation>)
    ensures found != [] <==> exists code :: HasCode(found, code)
  {
    if found != [] {
      assert found[0] in found;
      assert HasCode(found, found[0].code);
    }
  }

  lemma BrokenIsCause(policy: Policy, rule: Rule, context: Context, now: int, h: History, exact: bool)
    requires ValidRule(policy, rule)
    ensures Broken(policy, rule, context, now, h, exact, true) <==> exists code :: Cause(policy, rule, context, now, h, exact, code)
  {
    hide Broken, Cause, RuleViolations, HasCode, ValidRule;
    ViolationsMeanBroken(policy, rule, context, now, h, exact);
    SomeCode(RuleViolations(policy, rule, context, now, h, exact));
    forall code ensures HasCode(RuleViolations(policy, rule, context, now, h, exact), code) <==> Cause(policy, rule, context, now, h, exact, code) {
      FindingsExactly(policy, rule, context, now, h, exact, code);
    }
  }

  /** The engine denies exactly when some enforcing rule that applies has a cause to object. */
  lemma DeniesExactly(policy: Policy, context: Context, now: int, h: History, exact: bool)
    requires ValidPolicy(policy)
    ensures forall rule :: rule in policy.rules ==> ValidRule(policy, rule)
    ensures Decide(policy, context, now, h, exact).denied
            <==> exists rule, code :: rule in policy.rules && RuleMode(policy, rule) == Enforce && Applies(policy, rule, context)
                                      && Cause(policy, rule, context, now, h, exact, code)
  {
    hide Broken, Cause, Applies, Decide, RuleMode;
    DeniedIffBroken(policy, context, now, h, exact);
    forall rule | rule in policy.rules
      ensures ValidRule(policy, rule)
      ensures Broken(policy, rule, context, now, h, exact, true) <==> exists code :: Cause(policy, rule, context, now, h, exact, code)
    {
      BrokenIsCause(policy, rule, context, now, h, exact);
    }
  }

  /** Some enforcing rule that applies has this cause to object. */
  ghost predicate Enforces(policy: Policy, context: Context, now: int, h: History, exact: bool, code: Code)
    requires ValidPolicy(policy)
  {
    exists rule :: rule in policy.rules && RuleMode(policy, rule) == Enforce && Applies(policy, rule, context)
                   && Cause(policy, rule, context, now, h, exact, code)
  }

  lemma {:induction false} EnforcedCodes(decisions: seq<RuleDecision>, code: Code)
    ensures HasCode(EnforcedViolations(decisions), code)
            <==> exists i :: 0 <= i < |decisions| && decisions[i].mode == Enforce && HasCode(decisions[i].violations, code)
  {
    if decisions == [] {
      HasCodeOne(Violation(code, "", ""), code);
    } else {
      hide HasCode;
      var n := |decisions| - 1;
      EnforcedCodes(decisions[..n], code);
      assert forall i :: 0 <= i < n ==> decisions[..n][i] == decisions[i];
      HasCodeOne(Violation(code, "", ""), code);
      HasCodeConcat(EnforcedViolations(decisions[..n]), if decisions[n].mode == Enforce then decisions[n].violations else [], code);
    }
  }

  lemma EnforcedExactly(policy: Policy, context: Context, now: int, h: History, exact: bool, code: Code)
    requires ValidPolicy(policy)
    ensures forall i :: 0 <= i < |ApplicableRules(policy, context)| ==> ValidRule(policy, ApplicableRules(policy, context)[i])
    ensures HasCode(EnforcedViolations(RuleDecisions(policy, ApplicableRules(policy, context), context, now, h, exact)), code)
            <==> Enforces(policy, context, now, h, exact, code)
  {
    hide RuleViolations, HasCode, Cause, Applies, ApplicableRules, ValidRule, Specificity, RuleMode, EnforcedViolations;
    var rules := ApplicableRules(policy, context);
    ApplicableValid(policy, context);
    var decisions := RuleDecisions(policy, rules, context, now, h, exact);
    EnforcedCodes(decisions, code);
    forall i | 0 <= i < |rules|
      ensures rules[i] in policy.rules && Applies(policy, rules[i], context)
      ensures HasCode(decisions[i].violations, code) <==> Cause(policy, rules[i], context, now, h, exact, code)
    {
      ApplicableMember(policy, context, rules[i]);
      FindingsExactly(policy, rules[i], context, now, h, exact, code);
    }
    if rule :| rule in policy.rules && RuleMode(policy, rule) == Enforce && Applies(policy, rule, context)
               && Cause(policy, rule, context, now, h, exact, code) {
      ApplicableMember(policy, context, rule);
      var i :| 0 <= i < |rules| && rules[i] == rule;
      assert HasCode(decisions[i].violations, code);
    }
  }

  /** The status of a denial: 401 or 403 where identity or access is at fault, and only the one that
      is; else 402 where a cost is, 429 where a rate is, and 422 for a missing bound alone. */
  lemma StatusMeans(policy: Policy, context: Context, now: int, h: History, exact: bool)
    requires ValidPolicy(policy)
    ensures var status := Decide(policy, context, now, h, exact).status;
            var identity := Enforces(policy, context, now, h, exact, AuthenticatedIdentityRequired);
            var access := Enforces(policy, context, now, h, exact, DenyMatch) || Enforces(policy, context, now, h, exact, NotAllowed);
            var cost := Enforces(policy, context, now, h, exact, EstimatedCostUnknown) || Enforces(policy, context, now, h, exact, MaxEstimatedCallCost)
                        || Enforces(policy, context, now, h, exact, DollarLimitReached);
            var rate := Enforces(policy, context, now, h, exact, RequestLimit) || Enforces(policy, context, now, h, exact, TokenLimit)
                        || Enforces(policy, context, now, h, exact, ConcurrencyLimit);
            (status == 0 <==> !Decide(policy, context, now, h, exact).denied)
            && (status == 401 ==> identity) && (status == 403 ==> access) && (identity || access ==> status == 401 || status == 403)
            && (!identity && !access ==>
                  (status == 402 <==> cost) && (status == 429 <==> rate && !cost)
                  && (status == 422 <==> Enforces(policy, context, now, h, exact, OutputBoundRequired) && !cost && !rate))
  {
    hide Enforces, EnforcedViolations, RuleDecisions, ApplicableRules, HasCode, StatusForViolations;
    ApplicableValid(policy, context);
    var found := EnforcedViolations(RuleDecisions(policy, ApplicableRules(policy, context), context, now, h, exact));
    forall code ensures HasCode(found, code) <==> Enforces(policy, context, now, h, exact, code) {
      EnforcedExactly(policy, context, now, h, exact, code);
    }
    SomeCode(found);
    if found != [] {
      StatusByCodes(found);
    }
  }

  lemma StatusByCodes(found: seq<Violation>)
    requires found != []
    ensures var status := StatusForViolations(found);
            var identity, access := HasCode(found, AuthenticatedIdentityRequired), HasCode(found, DenyMatch) || HasCode(found, NotAllowed);
            var cost := HasCode(found, EstimatedCostUnknown) || HasCode(found, MaxEstimatedCallCost) || HasCode(found, DollarLimitReached);
            var rate := HasCode(found, RequestLimit) || HasCode(found, TokenLimit) || HasCode(found, ConcurrencyLimit);
            status != 0
            && (status == 401 ==> identity) && (status == 403 ==> access) && (identity || access ==> status == 401 || status == 403)
            && (!identity && !access ==>
                  (status == 402 <==> cost) && (status == 429 <==> rate && !cost)
                  && (status == 422 <==> HasCode(found, OutputBoundRequired) && !cost && !rate))
  {
    StatusExactly(found);
    hide StatusForViolations;
    if exists i :: 0 <= i < |found| && Settles(found[i].code) {
      var k := FirstSettling(found);
      assert found[k] in found;
    } else {
      assert found[0] in found;
      assert found[0].code != AuthenticatedIdentityRequired && found[0].code != DenyMatch && found[0].code != NotAllowed;
    }
  }

  lemma FirstSettling(found: seq<Violation>) returns (k: nat)
    requires exists i :: 0 <= i < |found| && Settles(found[i].code)
    ensures k < |found| && Settles(found[k].code) && forall i :: 0 <= i < k ==> !Settles(found[i].code)
  {
    k := 0;
    while !Settles(found[k].code)
      invariant k < |found| && forall i :: 0 <= i < k ==> !Settles(found[i].code)
      decreases |found| - k
    {
      k := k + 1;
    }
  }

  /** For a sample whose admission metadata is missing, a missing output bound is no fault. */
  lemma BrokenExactly(policy: Policy, rule: Rule, context: Context, now: int, h: History, exact: bool, boundKnown: bool)
    requires ValidRule(policy, rule)
    ensures Broken(policy, rule, context, now, h, exact, boundKnown)
            <==> exists code :: (boundKnown || code != OutputBoundRequired) && Cause(policy, rule, context, now, h, exact, code)
  {
    hide Cause, RequestViolations, TokenViolations, DollarViolations, IdentityViolations, StaticViolations, StableSort, HasCode;
    hide RequestExceeded, TokenExceeded, DollarObjects, HasEffect, ValidDimension, EnforceableScope, RuleMode;
    var key := RuleKey(policy, rule);
    var a, b := StaticViolations(rule, context), IdentityViolations(policy, rule, context);
    var c := RequestViolations(rule.limits.requests, key, now, h, exact);
    var d := TokenViolations(rule.limits.tokens, context, key, now, h, exact);
    var e := DollarViolations(rule.limits.dollars, context, key, now, h, exact);
    var f := if SlotsExceeded(rule, key, h) then [Violation(ConcurrencyLimit, "concurrency", "")] else [];
    RequestViolationsEmpty(rule.limits.requests, key, now, h, exact);
    TokenViolationsEmpty(rule.limits.tokens, context, key, now, h, exact);
    DollarViolationsEmpty(rule.limits.dollars, context, key, now, h, exact);
    StaticBrokenMeans(rule, context, boundKnown);
    SomeCode(b);
    SomeCode(c);
    SomeCode(d);
    SomeCode(e);
    SomeCode(f);
    forall code
      ensures Cause(policy, rule, context, now, h, exact, code)
              <==> HasCode(a, code) || HasCode(b, code) || HasCode(c, code) || HasCode(d, code) || HasCode(e, code) || HasCode(f, code)
    {
      FindingsExactly(policy, rule, context, now, h, exact, code);
      HasCodeSix(a, b, c, d, e, f, code);
    }
    IdentityMeans(policy, rule, context, OutputBoundRequired);
    RequestCodes(rule.limits.requests, key, now, h, exact, OutputBoundRequired);
    TokenCodes(rule.limits.tokens, context, key, now, h, exact, OutputBoundRequired);
    DollarCodes(rule.limits.dollars, context, key, now, h, exact, OutputBoundRequired);
    HasCodeOne(Violation(ConcurrencyLimit, "concurrency", ""), OutputBoundRequired);
  }

  lemma StaticBrokenMeans(rule: Rule, context: Context, boundKnown: bool)
    ensures StaticBroken(rule, context, boundKnown)
            <==> exists code :: (boundKnown || code != OutputBoundRequired) && HasCode(StaticViolations(rule, context), code)
  {
    hide StaticViolations;
    if StaticBroken(rule, context, boundKnown) {
      var v :| v in StaticViolations(rule, context) && (boundKnown || v.code != OutputBoundRequired);
      assert HasCode(StaticViolations(rule, context), v.code);
    }
  }

  // ----- which rules apply, and in what order they are explained -----

  ghost predicate Unproven(context: Context, d: Dimension) {
    IsIdentity(d) && (d in context.confidence ==> context.confidence[d] != "authenticated" && context.confidence[d] != "not_identity")
  }

  /** A rule applies when each of its scope lists names the label; an enforcing rule that scopes an
      unproven identity label applies whatever unproven labels say. */
  lemma AppliesExactly(policy: Policy, rule: Rule, context: Context)
    ensures Applies(policy, rule, context)
            <==> forall d: Dimension :: Selectors(rule, d) == [] || Names(Selectors(rule, d), Label(context, d))
                   || (IdentityUnproven(policy, rule, context) && Unproven(context, d))
  {
    hide RuleMode, Selectors, Label, IdentityUnproven, IdentityScopeAuthenticated, Names, SelectorsAccept, Trusted, Unproven;
    UnprovenScope(policy, rule, context);
    forall d: Dimension
      ensures Trusted(context, d) <==> !Unproven(context, d)
      ensures SelectorsAccept(rule, context, d) <==> Selectors(rule, d) == [] || Names(Selectors(rule, d), Label(context, d))
    {
      DimensionMeans(rule, context, d);
    }
  }

  lemma DimensionMeans(rule: Rule, context: Context, d: Dimension)
    ensures Trusted(context, d) <==> !Unproven(context, d)
    ensures SelectorsAccept(rule, context, d) <==> Selectors(rule, d) == [] || Names(Selectors(rule, d), Label(context, d))
  {
    hide Selectors, Label;
  }

  lemma UnprovenScope(policy: Policy, rule: Rule, context: Context)
    ensures IdentityUnproven(policy, rule, context) <==> RuleMode(policy, rule) == Enforce && !IdentityScopeAuthenticated(rule, context)
  {
    hide RuleMode, Selectors;
    if IdentityUnproven(policy, rule, context) {
      var d: Dimension :| IsIdentity(d) && Selectors(rule, d) != []
                          && (d in context.confidence ==> context.confidence[d] != "authenticated" && context.confidence[d] != "not_identity");
      assert !Trusted(context, d);
      assert !IdentityScopeAuthenticated(rule, context);
    } else if RuleMode(policy, rule) == Enforce {
      forall d: Dimension | Selectors(rule, d) != [] ensures Trusted(context, d) {
      }
    }
  }

  ghost function Scoped(rule: Rule, dimensions: seq<Dimension>): set<Dimension> {
    set d | d in dimensions && Selectors(rule, d) != []
  }

  lemma {:induction false} ScopeSizeCounts(rule: Rule, dimensions: seq<Dimension>)
    requires forall i, j :: 0 <= i < j < |dimensions| ==> dimensions[i] != dimensions[j]
    ensures ScopeSize(rule, dimensions) == |Scoped(rule, dimensions)|
  {
    hide Selectors;
    if dimensions != [] {
      var d, rest := dimensions[0], dimensions[1..];
      ScopeSizeCounts(rule, rest);
      assert forall i :: 0 <= i < |rest| ==> rest[i] == dimensions[i + 1];
      assert d !in rest;
      assert forall e :: e in dimensions <==> e == d || e in rest;
      assert Scoped(rule, dimensions) == Scoped(rule, rest) + (if Selectors(rule, d) != [] then {d} else {});
    }
  }

  lemma DimensionListed(d: Dimension)
    ensures d in DIMENSIONS
  {
  }

  lemma DimensionsDiffer()
    ensures forall i, j :: 0 <= i < j < |DIMENSIONS| ==> DIMENSIONS[i] != DIMENSIONS[j]
  {
  }

  /** A rule is the narrower the more dimensions it scopes. */
  lemma SpecificityExactly(rule: Rule)
    ensures Specificity(rule) == |set d: Dimension | Selectors(rule, d) != []|
  {
    hide Selectors, ScopeSize;
    DimensionsDiffer();
    ScopeSizeCounts(rule, DIMENSIONS);
    forall d: Dimension ensures d in DIMENSIONS {
      DimensionListed(d);
    }
    assert Scoped(rule, DIMENSIONS) == set d: Dimension | Selectors(rule, d) != [];
  }

  /** Rules are explained narrowest first, and in order of their ids among equally narrow ones. */
  lemma NarrowestFirst(policy: Policy, context: Context, i: nat, j: nat)
    requires i < j < |ApplicableRules(policy, context)|
    ensures var a, b := ApplicableRules(policy, context)[i], ApplicableRules(policy, context)[j];
            Specificity(a) > Specificity(b) || (Specificity(a) == Specificity(b) && !Precedes(b.id, a.id))
  {
    hide SelectApplicable, StableSort, Specificity, Precedes;
    Noninterference.NarrowerFirstIsOrder();
    StableSortSorted(SelectApplicable(policy, policy.rules, context), NarrowerFirst);
    assert !NarrowerFirst(ApplicableRules(policy, context)[j], ApplicableRules(policy, context)[i]);
  }

  function CodeText(code: Code): string {
    match code
    case AuthenticatedIdentityRequired => "authenticated_identity_required"
    case ConcurrencyLimit => "concurrency_limit"
    case DenyMatch => "deny_match"
    case DollarLimitReached => "dollar_limit"
    case EstimatedCostUnknown => "estimated_cost_unknown"
    case MaxEstimatedCallCost => "max_estimated_call_cost"
    case NotAllowed => "not_allowed"
    case OutputBoundRequired => "output_bound_required"
    case RequestLimit => "request_limit"
    case TokenLimit => "token_limit"
  }

  lemma FirstLetterDecides(a: string, b: string)
    requires a != [] && b != [] && a[0] != b[0]
    ensures Precedes(a, b) <==> a[0] < b[0]
  {
  }

  function Initial(code: Code): char {
    match code
    case AuthenticatedIdentityRequired => 'a'
    case ConcurrencyLimit => 'c'
    case DenyMatch => 'd'
    case DollarLimitReached => 'd'
    case EstimatedCostUnknown => 'e'
    case MaxEstimatedCallCost => 'm'
    case NotAllowed => 'n'
    case OutputBoundRequired => 'o'
    case RequestLimit => 'r'
    case TokenLimit => 't'
  }

  lemma TextStarts(code: Code)
    ensures CodeText(code) != [] && CodeText(code)[0] == Initial(code)
  {
  }

  lemma DenyBeforeDollar()
    ensures Precedes("deny_match", "dollar_limit") && !Precedes("dollar_limit", "deny_match")
  {
    var x, y := "deny_match", "dollar_limit";
    assert x[1..][0] == 'e' && y[1..][0] == 'o';
    FirstLetterDecides(x[1..], y[1..]);
    FirstLetterDecides(y[1..], x[1..]);
  }

  /** Codes are ranked as their texts sort. */
  lemma RankIsText(a: Code, b: Code)
    ensures CodeRank(a) < CodeRank(b) <==> Precedes(CodeText(a), CodeText(b))
  {
    TextStarts(a);
    TextStarts(b);
    DenyBeforeDollar();
    Noninterference.PrecedesIrreflexive(CodeText(a));
    if Initial(a) != Initial(b) {
      hide Precedes, CodeText;
      FirstLetterDecides(CodeText(a), CodeText(b));
    } else {
      hide Precedes;
    }
  }

  lemma {:induction false} PrecedesTotal(a: string, b: string)
    requires a != b
    ensures Precedes(a, b) || Precedes(b, a)
  {
    if a != [] && b != [] && a[0] == b[0] {
      assert a == [a[0]] + a[1..] && b == [b[0]] + b[1..];
      PrecedesTotal(a[1..], b[1..]);
    }
  }

  lemma RankIsCode(a: Code, b: Code)
    ensures CodeRank(a) == CodeRank(b) <==> a == b
  {
  }

  lemma NotBefore(a: Violation, b: Violation, c: Violation)
    requires !ViolationBefore(a, b) && !ViolationBefore(b, c)
    ensures !ViolationBefore(a, c)
  {
    hide Precedes;
    RankIsCode(a.code, b.code);
    RankIsCode(b.code, c.code);
    RankIsCode(a.code, c.code);
    if a.code == b.code == c.code {
      if a.dimension == b.dimension == c.dimension {
        Noninterference.PrecedesNegativelyTransitive(a.limitID, b.limitID, c.limitID);
      } else if a.dimension != b.dimension && b.dimension != c.dimension {
        Noninterference.PrecedesNegativelyTransitive(a.dimension, b.dimension, c.dimension);
        if a.dimension == c.dimension {
          PrecedesTotal(a.dimension, b.dimension);
        }
      }
    }
  }

  lemma ViolationOrder()
    ensures StrictWeakOrder(ViolationBefore)
  {
    hide Precedes;
    forall a ensures !ViolationBefore(a, a) {
      Noninterference.PrecedesIrreflexive(a.limitID);
    }
    forall a, b, c | ViolationBefore(a, b) && ViolationBefore(b, c) ensures ViolationBefore(a, c) {
      if a.code == b.code == c.code {
        if a.dimension == b.dimension == c.dimension {
          Noninterference.PrecedesTransitive(a.limitID, b.limitID, c.limitID);
        } else if a.dimension != b.dimension && b.dimension != c.dimension {
          Noninterference.PrecedesTransitive(a.dimension, b.dimension, c.dimension);
          Noninterference.PrecedesIrreflexive(a.dimension);
        }
      }
    }
    forall a, b, c | !ViolationBefore(a, b) && !ViolationBefore(b, c) ensures !ViolationBefore(a, c) {
      NotBefore(a, b, c);
    }
  }

  /** A rule's findings come in the order of their codes' texts. */
  lemma FindingsInOrder(policy: Policy, rule: Rule, context: Context, now: int, h: History, exact: bool, i: nat, j: nat)
    requires ValidRule(policy, rule) && i < j < |RuleViolations(policy, rule, context, now, h, exact)|
    ensures var found := RuleViolations(policy, rule, context, now, h, exact);
            !Precedes(CodeText(found[j].code), CodeText(found[i].code))
  {
    hide StaticViolations, IdentityViolations, RequestViolations, TokenViolations, DollarViolations, SlotFindings, StableSort, Precedes;
    var key := RuleKey(policy, rule);
    var parts := StaticViolations(rule, context) + IdentityViolations(policy, rule, context)
                 + RequestViolations(rule.limits.requests, key, now, h, exact)
                 + TokenViolations(rule.limits.tokens, context, key, now, h, exact)
                 + DollarViolations(rule.limits.dollars, context, key, now, h, exact) + SlotFindings(rule, key, h);
    RuleInParts(policy, rule, context, now, h, exact);
    ViolationOrder();
    StableSortSorted(parts, ViolationBefore);
    var found := StableSort(parts, ViolationBefore);
    assert !ViolationBefore(found[j], found[i]);
    RankIsText(found[j].code, found[i].code);
  }

  // ----- what was let through -----

  /** What the requests still counted for a rule asked for, at times in [from, until]. */
  ghost function Asked(policy: Policy, rule: Rule, h: History, asks: seq<Ask>, from: int, until: int, estimate: Context -> int): int
    requires |asks| == |h|
  {
    if h == [] then 0
    else
      var n := |h| - 1;
      Asked(policy, rule, h[..n], asks[..n], from, until, estimate)
      + (if h[n].status != Dropped && from <= asks[n].now <= until && Applies(policy, rule, asks[n].context) then estimate(asks[n].context) else 0)
  }

  lemma {:induction false} AskedIsUsage(policy: Policy, rule: Rule, h: History, asks: seq<Ask>, from: int, until: int, counter: Counter, estimate: Context -> int)
    requires ValidPolicy(policy) && rule in policy.rules && HasCounters(rule) && Matched(policy, h, asks)
    requires forall i :: 0 <= i < |h| ==> Amount(h[i].usage, counter) == estimate(asks[i].context)
    ensures UsageIn(h, Span(RuleKey(policy, rule), from, Some(until)), LIVE, counter) == Asked(policy, rule, h, asks, from, until, estimate)
  {
    hide ValidPolicy, Applies, Amount, BadEstimate, HasCounters, ConservativeCostMicroUSD;
    if h != [] {
      var n := |h| - 1;
      AskedIsUsage(policy, rule, h[..n], asks[..n], from, until, counter, estimate);
      assert Leaves(policy, asks[n].context, asks[n].now, h[n]);
    }
  }

  /** Every closed interval as long as a rolling window, and every aligned slot of a fixed one. */
  ghost predicate IsWindowOf(window: int, kind: WindowType, from: int, until: int) {
    if kind == Rolling then until == from + window else exists slot :: from == slot * window && until == from + window - 1
  }

  /** Over every run: the requests that an enforcing rule let through in a window are no more than its
      limit, however they were committed, cancelled or released. */
  lemma RequestsStayWithin(policy: Policy, steps: seq<Step>, rule: Rule, i: nat, from: int, until: int)
    requires ValidPolicy(policy) && RunUnder(policy, steps) && rule in policy.rules && RuleMode(policy, rule) == Enforce
    requires i < |rule.limits.requests| && IsWindowOf(rule.limits.requests[i].window, rule.limits.requests[i].windowType, from, until)
    ensures |Asks(steps)| == |Run(steps)|
    ensures Asked(policy, rule, Run(steps), Asks(steps), from, until, (c: Context) => 1) <= rule.limits.requests[i].max
  {
    hide ValidPolicy, RuleMode, UsageIn, Applies, HasCounters, ConservativeCostMicroUSD;
    var l := rule.limits.requests[i];
    var cap := Cap(rule, Requests, l.max, l.window, l.windowType);
    assert RequestCap(cap) && Enforced(policy, cap) && Within(cap, from, until);
    CapBounds(policy, cap);
    WindowsAreSafe(policy, cap, steps);
    AskedIsUsage(policy, rule, Run(steps), Asks(steps), from, until, Requests, (c: Context) => 1);
  }

  /** The same for the estimated tokens of the limit's kind. */
  lemma TokensStayWithin(policy: Policy, steps: seq<Step>, rule: Rule, i: nat, from: int, until: int)
    requires ValidPolicy(policy) && RunUnder(policy, steps) && rule in policy.rules && RuleMode(policy, rule) == Enforce
    requires i < |rule.limits.tokens| && IsWindowOf(rule.limits.tokens[i].window, rule.limits.tokens[i].windowType, from, until)
    ensures |Asks(steps)| == |Run(steps)|
    ensures Asked(policy, rule, Run(steps), Asks(steps), from, until, TokensOf(rule.limits.tokens[i].kind)) <= rule.limits.tokens[i].max
  {
    hide ValidPolicy, RuleMode, UsageIn, Applies, HasCounters, Matched, TokensOf, Run, Asks, EstimatedTokensForKind;
    var l := rule.limits.tokens[i];
    var cap := Cap(rule, KindCounter(l.kind), l.max, l.window, l.windowType);
    assert TokenCap(cap) && Enforced(policy, cap) && Within(cap, from, until);
    CapBounds(policy, cap);
    WindowsAreSafe(policy, cap, steps);
    TokensCounted(policy, Run(steps), Asks(steps), l.kind);
    AskedIsUsage(policy, rule, Run(steps), Asks(steps), from, until, KindCounter(l.kind), TokensOf(l.kind));
  }

  /** And for the micro-dollars each request may cost. */
  lemma DollarsStayWithin(policy: Policy, steps: seq<Step>, rule: Rule, i: nat, from: int, until: int)
    requires ValidPolicy(policy) && RunUnder(policy, steps) && rule in policy.rules && RuleMode(policy, rule) == Enforce
    requires i < |rule.limits.dollars| && IsWindowOf(rule.limits.dollars[i].window, rule.limits.dollars[i].windowType, from, until)
    ensures |Asks(steps)| == |Run(steps)|
    ensures Asked(policy, rule, Run(steps), Asks(steps), from, until, CostOf()) <= rule.limits.dollars[i].maxMicroUSD
  {
    hide ValidPolicy, RuleMode, UsageIn, Applies, HasCounters, ConservativeCostMicroUSD;
    var l := rule.limits.dollars[i];
    var cap := Cap(rule, Cost, l.maxMicroUSD, l.window, l.windowType);
    assert DollarCap(cap) && Enforced(policy, cap) && Within(cap, from, until);
    CapBounds(policy, cap);
    WindowsAreSafe(policy, cap, steps);
    AskedIsUsage(policy, rule, Run(steps), Asks(steps), from, until, Cost, CostOf());
  }

  ghost function TokensOf(kind: TokenKind): Context -> int {
    (c: Context) => match EstimatedTokensForKind(c, kind) case Some(n) => n case None => 0
  }

  ghost function CostOf(): Context -> int {
    (c: Context) => match ConservativeCostMicroUSD(c) case Some(n) => n case None => 0
  }

  lemma TokensCounted(policy: Policy, h: History, asks: seq<Ask>, kind: TokenKind)
    requires Matched(policy, h, asks)
    ensures |asks| == |h| && forall i :: 0 <= i < |h| ==> Amount(h[i].usage, KindCounter(kind)) == TokensOf(kind)(asks[i].context)
  {
    hide BadEstimate, Applies, HasCounters, ConservativeCostMicroUSD;
    forall i | 0 <= i < |h| ensures Amount(h[i].usage, KindCounter(kind)) == TokensOf(kind)(asks[i].context) {
      assert Leaves(policy, asks[i].context, asks[i].now, h[i]);
    }
  }

  /** No estimate that a limit of an enforcing rule needs is missing from a request it let through. */
  lemma NothingUnmeasured(policy: Policy, rule: Rule, context: Context, now: int, h: History)
    requires ValidPolicy(policy) && rule in policy.rules && RuleMode(policy, rule) == Enforce && Applies(policy, rule, context)
    requires Admits(policy, context, now, h)
    ensures forall i :: 0 <= i < |rule.limits.tokens| ==> EstimatedTokensForKind(context, rule.limits.tokens[i].kind).Some?
    ensures rule.limits.dollars != [] ==> ConservativeCostMicroUSD(context).Some?
  {
    hide Decide, Applies, RuleMode, RequestsFull, TokensFull, DollarsFull, LabelDenied, LabelOutside, IdentityUnproven, ConservativeCostMicroUSD, BadEstimate;
    DeniesExactly(policy, context, now, h, false);
    assert !Cause(policy, rule, context, now, h, false, OutputBoundRequired);
    assert !Cause(policy, rule, context, now, h, false, EstimatedCostUnknown);
  }
}
