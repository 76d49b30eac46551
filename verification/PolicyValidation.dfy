/** Accepting a policy document: every rule is checked, and every limit gets its own window under a
    key that no other limit can share. */
module PolicyValidation {
  import opened Common
  import opened PolicyTypes
  import Admission

  type Windows = map<WindowKey, int>

  /** The windows of one rule, and of nothing else under its id. */
  ghost predicate HasWindow(windows: Windows, rule: Rule, kind: LimitKind, id: string, window: int) {
    WindowKey(rule.id, kind, id) in windows && windows[WindowKey(rule.id, kind, id)] == window
  }

  ghost predicate Recorded(windows: Windows, rule: Rule) {
    (forall i :: 0 <= i < |rule.limits.requests| ==> HasWindow(windows, rule, RequestWindow, rule.limits.requests[i].id, rule.limits.requests[i].window))
    && (forall i :: 0 <= i < |rule.limits.tokens| ==> HasWindow(windows, rule, TokenWindow, rule.limits.tokens[i].id, rule.limits.tokens[i].window))
    && (forall i :: 0 <= i < |rule.limits.dollars| ==> HasWindow(windows, rule, DollarWindow, rule.limits.dollars[i].id, rule.limits.dollars[i].window))
  }

  /** Only keys of this rule and kind were added. */
  ghost predicate Extends(before: Windows, after: Windows, ruleID: string, kind: LimitKind) {
    forall k: WindowKey :: k.ruleID != ruleID || k.kind != kind ==> (k in after <==> k in before) && (k in before ==> after[k] == before[k])
  }

  method AddLimits(windows: Windows, rule: Rule, kind: LimitKind, limits: seq<WindowLimit>) returns (r: Option<Windows>)
    requires kind == RequestWindow || kind == TokenWindow
    ensures r.Some? <==> ValidWindowLimits(limits) && (kind == RequestWindow ==> forall i :: 0 <= i < |limits| ==> limits[i].kind == Unspecified)
    ensures r.Some? ==> Extends(windows, r.value, rule.id, kind)
                        && forall i :: 0 <= i < |limits| ==> HasWindow(r.value, rule, kind, limits[i].id, limits[i].window)
  {
    if |limits| > 64 {
      return None;
    }
    var added := windows;
    var seen: set<string> := {};
    for j := 0 to |limits|
      invariant forall id :: id in seen <==> exists i :: 0 <= i < j && limits[i].id == id
      invariant forall i, k :: 0 <= i < k < j ==> limits[i].id != limits[k].id
      invariant forall i :: 0 <= i < j ==> 1 <= limits[i].max <= MAX_INT64 && ValidWindow(limits[i].window)
      invariant kind == RequestWindow ==> forall i :: 0 <= i < j ==> limits[i].kind == Unspecified
      invariant Extends(windows, added, rule.id, kind)
      invariant forall i :: 0 <= i < j ==> HasWindow(added, rule, kind, limits[i].id, limits[i].window)
    {
      var limit := limits[j];
      if limit.id in seen || limit.max < 1 || limit.max > MAX_INT64 || (kind == RequestWindow && limit.kind != Unspecified)
         || !ValidWindow(limit.window) {
        return None;
      }
      seen := seen + {limit.id};
      added := added[WindowKey(rule.id, kind, limit.id) := limit.window];
    }
    return Some(added);
  }

  method AddDollars(windows: Windows, rule: Rule, limits: seq<DollarLimit>) returns (r: Option<Windows>)
    ensures r.Some? <==> ValidDollarLimits(limits)
    ensures r.Some? ==> Extends(windows, r.value, rule.id, DollarWindow)
                        && forall i :: 0 <= i < |limits| ==> HasWindow(r.value, rule, DollarWindow, limits[i].id, limits[i].window)
  {
    if |limits| > 64 {
      return None;
    }
    var added := windows;
    var seen: set<string> := {};
    for j := 0 to |limits|
      invariant forall id :: id in seen <==> exists i :: 0 <= i < j && limits[i].id == id
      invariant forall i, k :: 0 <= i < k < j ==> limits[i].id != limits[k].id
      invariant forall i :: 0 <= i < j ==>
                  1 <= limits[i].maxMicroUSD <= 1_000_000_000_000_000_000 && ValidWindow(limits[i].window)
      invariant Extends(windows, added, rule.id, DollarWindow)
      invariant forall i :: 0 <= i < j ==> HasWindow(added, rule, DollarWindow, limits[i].id, limits[i].window)
    {
      var limit := limits[j];
      if limit.id in seen || limit.maxMicroUSD < 1 || limit.maxMicroUSD > 1_000_000_000_000_000_000 || !ValidWindow(limit.window) {
        return None;
      }
      seen := seen + {limit.id};
      added := added[WindowKey(rule.id, DollarWindow, limit.id) := limit.window];
    }
    return Some(added);
  }

  ghost predicate OtherRulesKept(before: Windows, after: Windows, ruleID: string) {
    forall k: WindowKey :: k in before && k.ruleID != ruleID ==> k in after && after[k] == before[k]
  }

  method CheckSelectors(selectors: seq<string>) returns (ok: bool)
    ensures ok <==> ValidSelectors(selectors)
  {
    if |selectors| > 64 {
      return false;
    }
    var seen: set<string> := {};
    for j := 0 to |selectors|
      invariant forall s :: s in seen <==> exists i :: 0 <= i < j && selectors[i] == s
      invariant forall i, k :: 0 <= i < k < j ==> selectors[i] != selectors[k]
    {
      if selectors[j] in seen {
        return false;
      }
      seen := seen + {selectors[j]};
    }
    return true;
  }

  lemma EveryDimension(d: Dimension)
    ensures exists i :: 0 <= i < |Admission.DIMENSIONS| && Admission.DIMENSIONS[i] == d
  {
    assert d in Admission.DIMENSIONS;
  }

  method CheckDimension(rule: Rule, d: Dimension) returns (ok: bool)
    ensures ok <==> ValidDimension(rule, d)
  {
    ok := CheckSelectors(Selectors(rule, d));
    if ok {
      ok := CheckSelectors(AccessOf(rule, d).allow);
    }
    if ok {
      ok := CheckSelectors(AccessOf(rule, d).deny);
    }
  }

  /** Every selector list is bounded and free of repeats, and the rule restricts something. */
  method CheckScope(rule: Rule) returns (ok: bool)
    ensures ok <==> HasEffect(rule) && forall d: Dimension :: ValidDimension(rule, d)
  {
    hide ValidDimension, Restricts, HasCounters;
    var restricts := false;
    var dimensions := Admission.DIMENSIONS;
    for i := 0 to |dimensions|
      invariant forall j :: 0 <= j < i ==> ValidDimension(rule, dimensions[j])
      invariant restricts <==> exists j :: 0 <= j < i && Restricts(rule, dimensions[j])
    {
      var valid := CheckDimension(rule, dimensions[i]);
      if !valid {
        return false;
      }
      restricts := restricts || Restricts(rule, dimensions[i]);
    }
    forall d: Dimension ensures ValidDimension(rule, d) && (Restricts(rule, d) ==> restricts) {
      EveryDimension(d);
    }
    return restricts || HasCounters(rule) || rule.limits.concurrency != 0 || rule.limits.maxCallCostUSD.Some? || rule.limits.requireOutputBound;
  }

  method AddRule(windows: Windows, policy: Policy, rule: Rule) returns (r: Option<Windows>)
    ensures r.Some? <==> ValidRule(policy, rule)
    ensures r.Some? ==> Recorded(r.value, rule) && OtherRulesKept(windows, r.value, rule.id)
  {
    hide ValidWindowLimits, ValidDollarLimits, EnforceableScope, RuleMode, HasEffect, ValidDimension;
    var scoped := CheckScope(rule);
    if !scoped {
      return None;
    }
    if RuleMode(policy, rule) == Enforce && !EnforceableScope(rule) {
      return None;
    }
    var cost := rule.limits.maxCallCostUSD;
    if rule.limits.concurrency < 0 || rule.limits.concurrency > MAX_INT64 || (cost.Some? && (cost.value < 0.0 || cost.value > 1000000000000.0)) {
      return None;
    }
    var requests := AddLimits(windows, rule, RequestWindow, rule.limits.requests);
    if requests.None? {
      return None;
    }
    var tokens := AddLimits(requests.value, rule, TokenWindow, rule.limits.tokens);
    if tokens.None? {
      return None;
    }
    r := AddDollars(tokens.value, rule, rule.limits.dollars);
  }

  /** The first `n` rules are in order and their windows are on record. */
  ghost predicate SoFar(policy: Policy, n: nat, windows: Windows, ids: set<string>, total: int) {
    n <= |policy.rules|
    && (forall id :: id in ids <==> exists i :: 0 <= i < n && policy.rules[i].id == id)
    && (forall i, j :: 0 <= i < j < n ==> policy.rules[i].id != policy.rules[j].id)
    && (forall i :: 0 <= i < n ==> ValidRule(policy, policy.rules[i]) && Recorded(windows, policy.rules[i]))
    && total == WindowLimits(policy.rules[..n]) <= MAX_WINDOW_LIMITS
  }

  lemma OneMore(policy: Policy, n: nat, windows: Windows, ids: set<string>, total: int, next: Windows)
    requires SoFar(policy, n, windows, ids, total) && n < |policy.rules|
    requires policy.rules[n].id !in ids && ValidRule(policy, policy.rules[n]) && total + LimitCount(policy.rules[n]) <= MAX_WINDOW_LIMITS
    requires Recorded(next, policy.rules[n]) && OtherRulesKept(windows, next, policy.rules[n].id)
    ensures SoFar(policy, n + 1, next, ids + {policy.rules[n].id}, total + LimitCount(policy.rules[n]))
  {
    hide ValidRule, Recorded, LimitCount, OtherRulesKept;
    assert policy.rules[..n + 1][..n] == policy.rules[..n];
    forall i | 0 <= i < n ensures Recorded(next, policy.rules[i]) {
      StaysRecorded(windows, next, policy.rules[n].id, policy.rules[i]);
    }
  }

  lemma Overfull(policy: Policy, n: nat, windows: Windows, ids: set<string>, total: int)
    requires SoFar(policy, n, windows, ids, total) && n < |policy.rules|
    requires policy.rules[n].id in ids || total + LimitCount(policy.rules[n]) > MAX_WINDOW_LIMITS
    ensures !ValidPolicy(policy)
  {
    hide ValidRule, Recorded, LimitCount;
    assert policy.rules[..n + 1][..n] == policy.rules[..n];
    MoreRulesMoreLimits(policy.rules, n + 1);
  }

  lemma NoneYet(policy: Policy)
    ensures SoFar(policy, 0, map[], {}, 0)
  {
  }

  lemma AllAccepted(policy: Policy, windows: Windows, ids: set<string>, total: int)
    requires SoFar(policy, |policy.rules|, windows, ids, total) && 0 < |policy.rules| <= 256
    ensures ValidPolicy(policy) && forall i :: 0 <= i < |policy.rules| ==> Recorded(windows, policy.rules[i])
  {
    hide ValidRule, Recorded;
    assert policy.rules[..|policy.rules|] == policy.rules;
  }

  /** A document is accepted exactly when it is valid, and then every limit of every rule finds its
      own window, whatever characters ids contain. */
  method Validate(policy: Policy) returns (windows: Option<Windows>)
    ensures windows.Some? <==> ValidPolicy(policy)
    ensures windows.Some? ==> forall i :: 0 <= i < |policy.rules| ==> Recorded(windows.value, policy.rules[i])
  {
    hide ValidRule, Recorded, LimitCount, SoFar, OtherRulesKept, WindowLimits;
    if policy.rules == [] || |policy.rules| > 256 {
      return None;
    }
    var added: Windows := map[];
    var ids: set<string> := {};
    var total := 0;
    NoneYet(policy);
    for n := 0 to |policy.rules|
      invariant SoFar(policy, n, added, ids, total)
    {
      var rule := policy.rules[n];
      if rule.id in ids || total + LimitCount(rule) > MAX_WINDOW_LIMITS {
        Overfull(policy, n, added, ids, total);
        return None;
      }
      var next := AddRule(added, policy, rule);
      if next.None? {
        return None;
      }
      OneMore(policy, n, added, ids, total, next.value);
      ids := ids + {rule.id};
      total := total + LimitCount(rule);
      added := next.value;
    }
    AllAccepted(policy, added, ids, total);
    return Some(added);
  }

  lemma {:induction false} MoreRulesMoreLimits(rules: seq<Rule>, n: nat)
    requires n <= |rules|
    ensures WindowLimits(rules[..n]) <= WindowLimits(rules)
  {
    if n < |rules| {
      MoreRulesMoreLimits(rules[..|rules| - 1], n);
      assert rules[..|rules| - 1][..n] == rules[..n];
    } else {
      assert rules[..n] == rules;
    }
  }

  lemma StaysRecorded(before: Windows, after: Windows, ruleID: string, rule: Rule)
    requires Recorded(before, rule) && OtherRulesKept(before, after, ruleID) && rule.id != ruleID
    ensures Recorded(after, rule)
  {
  }
}
