/** The downshift plan: when a request is moved to a cheaper equivalent, and what it looks like
    then. Whenever it is not moved it goes out exactly as it came in. */
module Downshift {
  import opened Common
  import opened Budget

  datatype Action = NoAction | Warn | Shift

  datatype Trigger = NoTrigger | Warning | Threshold | OnDenial

  datatype Config = Config(observe: bool, warnAtPct: real, downshiftAtPct: real, downshiftOnDenial: bool)

  datatype Rule = Rule(id: string, sourceDialect: string, targetRoute: string, targetModel: string, targetDialect: string)

  /** What the proxy itself serves: the live dialects, and the target's when it has that route. */
  datatype Live = Live(dialect: string, target: Option<string>, scopeMatches: bool, eligible: bool)

  datatype Decision = Decision(action: Action, trigger: Trigger)

  predicate Compatible(rule: Option<Rule>, live: Live) {
    rule.Some? && live.dialect == rule.value.sourceDialect && live.target == Some(rule.value.targetDialect)
    && live.scopeMatches && live.eligible
  }

  /** `pct` is below zero when no dollar budget is set. */
  function Decide(config: Option<Config>, rule: Option<Rule>, live: Live, pct: real, denial: bool): Decision {
    if config.None? || rule.None? || live.dialect != rule.value.sourceDialect || live.target.None?
       || live.target.value != rule.value.targetDialect || !live.scopeMatches || !live.eligible
    then Decision(NoAction, NoTrigger)
    else
      var c := config.value;
      if denial && !c.downshiftOnDenial then Decision(NoAction, NoTrigger)
      else
        var trigger := if denial then OnDenial
                       else if pct >= c.downshiftAtPct then Threshold
                       else if pct >= c.warnAtPct then Warning
                       else NoTrigger;
        if trigger == NoTrigger then Decision(NoAction, trigger)
        else if c.observe || trigger == Warning then Decision(Warn, trigger)
        else Decision(Shift, trigger)
  }

  /** A warning stands in for a shift in observe mode, and for the stretch below the threshold. */
  lemma WarnsExactly(config: Option<Config>, rule: Option<Rule>, live: Live, pct: real, denial: bool)
    ensures Decide(config, rule, live, pct, denial).action == Warn
            <==> config.Some? && Compatible(rule, live)
                 && if denial then config.value.observe && config.value.downshiftOnDenial
                    else if pct >= config.value.downshiftAtPct then config.value.observe
                    else pct >= config.value.warnAtPct
  {
  }

  /** Only a compatible rule under a configuration that acts ever shifts, and only for a denial it
      covers or a budget past its threshold; with no budget set nothing but a denial does. */
  lemma ShiftsExactly(config: Option<Config>, rule: Option<Rule>, live: Live, pct: real, denial: bool)
    ensures Decide(config, rule, live, pct, denial).action == Shift
            <==> config.Some? && Compatible(rule, live) && !config.value.observe
                 && if denial then config.value.downshiftOnDenial else pct >= config.value.downshiftAtPct
    ensures config.Some? && 0.0 <= config.value.warnAtPct <= config.value.downshiftAtPct && pct < 0.0 && !denial
            ==> Decide(config, rule, live, pct, denial).action == NoAction
  {
  }

  /** A decision names what brought it about: the denial, or how far the budget is spent. */
  lemma TriggersExactly(config: Option<Config>, rule: Option<Rule>, live: Live, pct: real, denial: bool)
    requires Decide(config, rule, live, pct, denial).action != NoAction
    ensures config.Some? && var trigger := Decide(config, rule, live, pct, denial).trigger;
            (trigger == OnDenial <==> denial) && (trigger == Threshold <==> !denial && pct >= config.value.downshiftAtPct)
            && (trigger == Warning <==> !denial && config.value.warnAtPct <= pct < config.value.downshiftAtPct)
  {
  }

  /** Spending more never takes an action back. */
  lemma PressureOnlyRaises(config: Config, rule: Option<Rule>, live: Live, low: real, high: real)
    requires config.warnAtPct <= config.downshiftAtPct && low <= high
    ensures Rank(Decide(Some(config), rule, live, low, false).action) <= Rank(Decide(Some(config), rule, live, high, false).action)
  {
  }

  function Rank(a: Action): int { match a case NoAction => 0 case Warn => 1 case Shift => 2 }

  // ----- the request before and after -----

  datatype Info = Info(model: string, admission: Estimate, parsed: bool)

  datatype Form = Form(provider: string, route: string, path: string, body: string, shape: string, info: Info)

  /** What rewriting the request for the rule's target comes to. */
  datatype Rewrite = Unrewritable | Rewritten(path: string, body: string, eligible: bool, info: Info, metadataValid: bool)

  predicate Usable(rule: Rule, rewrite: Rewrite) {
    rewrite.Rewritten? && rewrite.eligible && rewrite.info.parsed && rewrite.metadataValid
    && rewrite.info.model == rule.targetModel && rewrite.info.admission.priced && rewrite.info.admission.bounded
  }

  predicate Cheaper(target: Estimate, source: Estimate) { target.usd < source.usd - SLACK }

  /** The rule's target, rewritten, priced and bounded. */
  predicate IsTarget(rule: Rule, rewrite: Rewrite, form: Form) {
    Usable(rule, rewrite)
    && form == Form(rule.targetRoute, rewrite.path, rewrite.path, rewrite.body, rule.targetDialect, rewrite.info)
  }

  class Plan {
    const config: Option<Config>
    const rule: Option<Rule>
    const live: Live
    const rewrite: Rewrite
    const requested: Form
    const pct: real
    var decision: Decision
    var chosen: Form

    /** Out as it came in, unless shifted; then the rule's target, and strictly cheaper whenever the
        source had a price and was not refused for it. */
    ghost predicate Valid()
      reads this
    {
      (decision.action != Shift ==> chosen == requested)
      && (decision.action == Shift ==>
            config.Some? && Compatible(rule, live) && IsTarget(rule.value, rewrite, chosen)
            && (decision.trigger != OnDenial && requested.info.admission.priced
                ==> Cheaper(chosen.info.admission, requested.info.admission)))
    }

    constructor (config: Option<Config>, rule: Option<Rule>, live: Live, rewrite: Rewrite, requested: Form, pct: real)
      ensures Valid() && this.requested == requested && this.rewrite == rewrite && this.rule == rule && this.config == config
      ensures this.live == live && this.pct == pct
      ensures decision.action == Shift <==>
                Decide(config, rule, live, pct, false).action == Shift && Usable(rule.value, rewrite)
                && (requested.info.admission.priced ==> Cheaper(rewrite.info.admission, requested.info.admission))
      ensures decision.action == Warn <==>
                Decide(config, rule, live, pct, false).action == Warn && Usable(rule.value, rewrite)
                && (requested.info.admission.priced ==> Cheaper(rewrite.info.admission, requested.info.admission))
    {
      this.config, this.rule, this.live, this.rewrite := config, rule, live, rewrite;
      this.requested, this.pct, chosen := requested, pct, requested;
      decision := Decide(config, rule, live, pct, false);
      new;
      if decision.action == Shift {
        var applied := ApplyTarget(false);
        if !applied {
          decision := decision.(action := NoAction);
        }
      } else if decision.action == Warn {
        var would := WouldApply(false);
        if !would {
          decision := decision.(action := NoAction);
        }
      }
    }

    method WouldApply(sourceWasDenied: bool) returns (ok: bool)
      requires chosen == requested
      ensures ok <==> rule.Some? && Usable(rule.value, rewrite)
                      && (!sourceWasDenied && requested.info.admission.priced ==> Cheaper(rewrite.info.admission, requested.info.admission))
    {
      if rule.None? || rewrite.Unrewritable? || !rewrite.eligible || !rewrite.info.parsed || !rewrite.metadataValid {
        return false;
      }
      if rewrite.info.model != rule.value.targetModel || !rewrite.info.admission.priced || !rewrite.info.admission.bounded {
        return false;
      }
      return sourceWasDenied || !chosen.info.admission.priced
             || !(rewrite.info.admission.usd >= chosen.info.admission.usd - SLACK);
    }

    method ApplyTarget(sourceWasDenied: bool) returns (ok: bool)
      requires chosen == requested
      modifies this`chosen
      ensures ok <==> rule.Some? && Usable(rule.value, rewrite)
                      && (!sourceWasDenied && requested.info.admission.priced ==> Cheaper(rewrite.info.admission, requested.info.admission))
      ensures ok ==> IsTarget(rule.value, rewrite, chosen)
      ensures !ok ==> chosen == old(chosen)
    {
      ok := WouldApply(sourceWasDenied);
      if ok {
        chosen := Form(rule.value.targetRoute, rewrite.path, rewrite.path, rewrite.body, rule.value.targetDialect, rewrite.info);
      }
    }

    /** A second decision after a budget denial; true when the request is now shifted. */
    method RetryAfterDenial() returns (shifted: bool)
      requires Valid() && decision.action != Shift
      modifies this
      ensures Valid() && (shifted <==> decision.action == Shift)
      ensures shifted <==> config.Some? && Decide(config, rule, live, pct, true).action == Shift && Usable(rule.value, rewrite)
    {
      if config.None? {
        return false;
      }
      decision := Decide(config, rule, live, pct, true);
      if decision.action == Warn {
        var would := WouldApply(true);
        if !would {
          decision := decision.(action := NoAction);
        }
        return false;
      }
      if decision.action != Shift {
        return false;
      }
      shifted := ApplyTarget(true);
      if !shifted {
        decision := decision.(action := NoAction);
      }
    }

    /** The budget refused the target: the request is what it was. */
    method CancelUnforwarded()
      requires Valid()
      modifies this
      ensures Valid() && decision.action != Shift && chosen == requested
      ensures old(decision.action) != Shift ==> decision == old(decision)
    {
      if decision.action == Shift {
        decision := decision.(action := NoAction);
        chosen := requested;
      }
    }

    method CancelSelected()
      requires Valid()
      modifies this
      ensures Valid() && decision.action == NoAction && chosen == requested
    {
      if decision.action != NoAction {
        decision := decision.(action := NoAction);
        chosen := requested;
      }
    }
  }
}
