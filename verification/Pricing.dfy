/** Which price a call gets: the provider's own final amount, else the most specific contract, else
    the public list. Neither the order of the contracts nor of the list may matter. */
module Pricing {
  import opened Common

  // ----- model selectors -----

  predicate Separator(c: char) { c == '-' || c == '.' || c == '@' || c == ':' }

  predicate VersionSuffix(s: string) { |s| >= 2 && Separator(s[0]) && '0' <= s[1] <= '9' }

  /** A configured model stands for itself and its dated or numbered versions. */
  predicate ModelMatches(configured: string, observed: string) {
    observed == configured || (configured <= observed && VersionSuffix(observed[|configured|..]))
  }

  /** A version is the name, a separator, a digit, and anything. */
  lemma ModelMatchesExactly(configured: string, observed: string)
    ensures ModelMatches(configured, observed)
            <==> observed == configured
                 || exists separator, digit, rest: string ::
                      separator in ['-', '.', '@', ':'] && '0' <= digit <= '9' && observed == configured + [separator, digit] + rest
  {
    if ModelMatches(configured, observed) && observed != configured {
      var suffix := observed[|configured|..];
      assert observed == configured + [suffix[0], suffix[1]] + suffix[2..];
    }
    if separator, digit, rest: string :| separator in ['-', '.', '@', ':'] && '0' <= digit <= '9' && observed == configured + [separator, digit] + rest {
      assert configured <= observed && observed[|configured|..] == [separator, digit] + rest;
    }
  }

  predicate ModelSelectorsOverlap(a: string, b: string) { ModelMatches(a, b) || ModelMatches(b, a) }

  lemma ShorterSelects(a: string, b: string, model: string)
    requires |a| <= |b| && ModelMatches(a, model) && ModelMatches(b, model)
    ensures ModelMatches(a, b)
  {
    assert a <= b;
    if |a| < |b| {
      var rest := model[|a|..];
      assert VersionSuffix(rest);
      // Were b one separator longer than a, its own suffix of the model would start with a digit.
      assert |b| > |a| + 1;
      assert b[|a|..][0] == rest[0] && b[|a|..][1] == rest[1];
    }
  }

  /** Two selectors overlap exactly when some model is matched by both. */
  lemma OverlapIsCommonModel(a: string, b: string)
    ensures ModelSelectorsOverlap(a, b) <==> exists model :: ModelMatches(a, model) && ModelMatches(b, model)
  {
    if ModelMatches(a, b) {
      assert ModelMatches(b, b);
    } else if ModelMatches(b, a) {
      assert ModelMatches(a, a);
    }
    forall model | ModelMatches(a, model) && ModelMatches(b, model) ensures ModelSelectorsOverlap(a, b) {
      if |a| <= |b| {
        ShorterSelects(a, b, model);
      } else {
        ShorterSelects(b, a, model);
      }
    }
  }

  // ----- contracts -----

  /** Dates are day numbers up to the last one that can be written. */
  const LAST_DAY: int := 3652058

  datatype Contract = Contract(id: string, provider: string, model: string, region: string, tier: string,
                               from: int, through: Option<int>, price: real)

  datatype Query = Query(provider: string, model: string, region: string, tier: string, date: int)

  function FoldChar(c: char): char { if 'A' <= c <= 'Z' then c + 32 as char else c }

  function Fold(s: string): (r: string)
    ensures |r| == |s|
  {
    seq(|s|, i requires 0 <= i < |s| => FoldChar(s[i]))
  }

  predicate EqualFold(a: string, b: string) { Fold(a) == Fold(b) }

  /** Letter for letter the same, or an ASCII capital and its small letter. */
  lemma EqualFoldExactly(a: string, b: string)
    ensures EqualFold(a, b)
            <==> |a| == |b| && forall i :: 0 <= i < |a| ==>
                   a[i] == b[i] || ('A' <= a[i] <= 'Z' && b[i] as int == a[i] as int + 32) || ('A' <= b[i] <= 'Z' && a[i] as int == b[i] as int + 32)
  {
    if |a| == |b| {
      forall i | 0 <= i < |a| ensures Fold(a)[i] == FoldChar(a[i]) && Fold(b)[i] == FoldChar(b[i]) {
      }
    }
  }

  predicate InRange(c: Contract, date: int) {
    c.from <= date && (c.through.None? || date <= c.through.value)
  }

  predicate ContractMatches(c: Contract, q: Query) {
    EqualFold(c.provider, q.provider) && ModelMatches(c.model, q.model) && InRange(c, q.date)
    && (c.region == "" || EqualFold(c.region, q.region)) && (c.tier == "" || EqualFold(c.tier, q.tier))
  }

  function Specificity(c: Contract): int {
    2 + (if c.region != "" then 1 else 0) + (if c.tier != "" then 1 else 0)
  }

  /** A contract is more specific than another when it names more of region and tier. */
  lemma MoreSpecificExactly(a: Contract, b: Contract)
    ensures Specificity(a) > Specificity(b)
            <==> ((a.region != "" && a.tier != "") && (b.region == "" || b.tier == ""))
                 || ((a.region != "" || a.tier != "") && b.region == "" && b.tier == "")
  {
  }

  predicate SameSelector(a: Contract, b: Contract) {
    EqualFold(a.provider, b.provider) && ModelSelectorsOverlap(a.model, b.model)
    && EqualFold(a.region, b.region) && EqualFold(a.tier, b.tier)
  }

  function End(c: Contract): int { if c.through.None? then LAST_DAY else c.through.value }

  predicate RangesOverlap(a: Contract, b: Contract) { a.from <= End(b) && b.from <= End(a) }

  predicate Ambiguous(a: Contract, b: Contract) {
    Specificity(a) == Specificity(b) && SameSelector(a, b) && RangesOverlap(a, b)
  }

  predicate WellDated(c: Contract) {
    0 <= c.from <= LAST_DAY && (c.through.Some? ==> c.from <= c.through.value <= LAST_DAY)
  }

  predicate WellNamed(c: Contract) { c.id != "" && c.provider != "" && c.model != "" }

  /** Distinct ids, sensible dates, and no two equally specific contracts for the same calls. */
  ghost predicate Accepted(contracts: seq<Contract>) {
    (forall i :: 0 <= i < |contracts| ==> WellNamed(contracts[i]) && WellDated(contracts[i]))
    && (forall i, j :: 0 <= i < j < |contracts| ==> contracts[i].id != contracts[j].id)
    && (forall i, j :: 0 <= i < j < |contracts| ==> !Ambiguous(contracts[i], contracts[j]))
  }

  method ValidateContracts(contracts: seq<Contract>) returns (ok: bool)
    ensures ok <==> Accepted(contracts)
  {
    hide Ambiguous, WellDated, WellNamed;
    var seen: set<string> := {};
    for i := 0 to |contracts|
      invariant forall k :: 0 <= k < i ==> WellNamed(contracts[k]) && WellDated(contracts[k])
      invariant forall k, l :: 0 <= k < l < i ==> contracts[k].id != contracts[l].id
      invariant forall id :: id in seen <==> exists k :: 0 <= k < i && contracts[k].id == id
    {
      if !WellNamed(contracts[i]) || contracts[i].id in seen || !WellDated(contracts[i]) {
        return false;
      }
      seen := seen + {contracts[i].id};
    }
    for i := 0 to |contracts|
      invariant forall k, l :: 0 <= k < i && k < l < |contracts| ==> !Ambiguous(contracts[k], contracts[l])
    {
      for j := i + 1 to |contracts|
        invariant forall l :: i < l < j ==> !Ambiguous(contracts[i], contracts[l])
      {
        if Ambiguous(contracts[i], contracts[j]) {
          return false;
        }
      }
    }
    return true;
  }

  /** Overlapping ranges are those that share a day. */
  lemma OverlapIsCommonDay(a: Contract, b: Contract)
    requires WellDated(a) && WellDated(b)
    ensures RangesOverlap(a, b) <==> exists date :: date <= LAST_DAY && InRange(a, date) && InRange(b, date)
  {
    if RangesOverlap(a, b) {
      var date := Max(a.from, b.from);
      assert InRange(a, date) && InRange(b, date);
    }
  }

  predicate SameShape(a: Contract, b: Contract) { (a.region == "") == (b.region == "") && (a.tier == "") == (b.tier == "") }

  /** Two contracts of one shape that match one query are ambiguous, so an accepted list has no
      such pair. */
  lemma OneOfEachShape(a: Contract, b: Contract, q: Query)
    requires WellDated(a) && WellDated(b) && q.date <= LAST_DAY
    requires SameShape(a, b) && ContractMatches(a, q) && ContractMatches(b, q)
    ensures Ambiguous(a, b)
  {
    OverlapIsCommonModel(a.model, b.model);
    OverlapIsCommonDay(a, b);
  }

  // ----- the winning contract -----

  /** First of the most specific matching contracts. */
  function Winner(contracts: seq<Contract>, q: Query): Option<Contract> {
    if contracts == [] then None
    else
      var last := contracts[|contracts| - 1];
      var earlier := Winner(contracts[..|contracts| - 1], q);
      if ContractMatches(last, q) && (earlier.None? || Specificity(last) > Specificity(earlier.value)) then Some(last) else earlier
  }

  method SelectContract(contracts: seq<Contract>, q: Query) returns (winner: Option<Contract>)
    ensures winner == Winner(contracts, q)
  {
    winner := None;
    var best := -1;
    for i := 0 to |contracts|
      invariant winner == Winner(contracts[..i], q)
      invariant best == if winner.None? then -1 else Specificity(winner.value)
    {
      assert contracts[..i + 1][..i] == contracts[..i];
      if ContractMatches(contracts[i], q) && Specificity(contracts[i]) > best {
        winner, best := Some(contracts[i]), Specificity(contracts[i]);
      }
    }
    assert contracts[..|contracts|] == contracts;
  }

  /** The winner matches, and nothing that matches is more specific. */
  lemma {:induction false} WinnerIsBest(contracts: seq<Contract>, q: Query)
    ensures Winner(contracts, q).None? <==> forall c :: c in contracts ==> !ContractMatches(c, q)
    ensures Winner(contracts, q).Some? ==>
              Winner(contracts, q).value in contracts && ContractMatches(Winner(contracts, q).value, q)
              && forall c :: c in contracts && ContractMatches(c, q) ==> Specificity(c) <= Specificity(Winner(contracts, q).value)
  {
    hide ContractMatches;
    if contracts != [] {
      var n := |contracts| - 1;
      WinnerIsBest(contracts[..n], q);
      assert forall c :: c in contracts <==> c in contracts[..n] || c == contracts[n];
    }
  }

  ghost predicate RegionOnly(c: Contract) { c.region != "" && c.tier == "" }

  ghost predicate TierOnly(c: Contract) { c.region == "" && c.tier != "" }

  /** A region-only and a tier-only contract match and nothing more specific does. */
  ghost predicate Tie(contracts: seq<Contract>, q: Query) {
    (exists a, b :: a in contracts && b in contracts && RegionOnly(a) && TierOnly(b) && ContractMatches(a, q) && ContractMatches(b, q))
    && forall c :: c in contracts && ContractMatches(c, q) ==> Specificity(c) <= 3
  }

  lemma NotAmbiguous(contracts: seq<Contract>, a: Contract, b: Contract)
    requires Accepted(contracts) && a in contracts && b in contracts && a != b
    ensures !Ambiguous(a, b) || !Ambiguous(b, a)
  {
    hide Ambiguous, WellDated, WellNamed;
    var i, j :| 0 <= i < |contracts| && 0 <= j < |contracts| && contracts[i] == a && contracts[j] == b;
    if i < j {
      assert !Ambiguous(contracts[i], contracts[j]);
    } else {
      assert !Ambiguous(contracts[j], contracts[i]);
    }
  }

  lemma MatchingTwice(contracts: seq<Contract>, q: Query, a: Contract, b: Contract)
    requires Accepted(contracts) && q.date <= LAST_DAY
    requires a in contracts && b in contracts && ContractMatches(a, q) && ContractMatches(b, q)
    requires Specificity(a) == Specificity(b)
    ensures a == b || (RegionOnly(a) && TierOnly(b)) || (RegionOnly(b) && TierOnly(a))
  {
    hide ContractMatches;
    if a != b && SameShape(a, b) {
      NotAmbiguous(contracts, a, b);
      OneOfEachShape(a, b, q);
      OneOfEachShape(b, a, q);
    }
  }

  lemma Permuted(a: seq<Contract>, b: seq<Contract>, c: Contract)
    requires multiset(a) == multiset(b)
    ensures c in a <==> c in b
  {
    assert c in a <==> c in multiset(a);
    assert c in b <==> c in multiset(b);
  }

  /** Without a tie, every order of the same contracts has the same winner. */
  lemma OrderIrrelevant(contracts: seq<Contract>, other: seq<Contract>, q: Query)
    requires Accepted(contracts) && multiset(other) == multiset(contracts) && q.date <= LAST_DAY && !Tie(contracts, q)
    ensures Winner(other, q) == Winner(contracts, q)
  {
    hide ContractMatches, Winner, Ambiguous, WellDated, WellNamed;
    WinnerIsBest(contracts, q);
    WinnerIsBest(other, q);
    forall c ensures c in contracts <==> c in other {
      Permuted(contracts, other, c);
    }
    if Winner(contracts, q).Some? && Winner(other, q).Some? {
      MatchingTwice(contracts, q, Winner(contracts, q).value, Winner(other, q).value);
    }
  }

  lemma {:induction false} FirstWins(first: Contract, rest: seq<Contract>, q: Query)
    requires ContractMatches(first, q)
    requires forall c :: c in rest && ContractMatches(c, q) ==> Specificity(c) <= Specificity(first)
    ensures Winner([first] + rest, q) == Some(first)
  {
    hide ContractMatches, Specificity;
    if rest == [] {
      assert ([first] + rest)[..0] == [] && ([first] + rest)[0] == first;
    } else {
      var n := |rest| - 1;
      FirstWins(first, rest[..n], q);
      assert ([first] + rest)[..n + 1] == [first] + rest[..n];
      assert rest[n] in rest;
    }
  }

  /** Resolution is independent of the order of an accepted list exactly when no region-only and
      tier-only pair ties. */
  lemma OrderIrrelevantExactly(contracts: seq<Contract>, q: Query)
    requires Accepted(contracts) && q.date <= LAST_DAY
    ensures (forall other :: multiset(other) == multiset(contracts) ==> Winner(other, q) == Winner(contracts, q)) <==> !Tie(contracts, q)
  {
    hide ContractMatches, Winner, Ambiguous, WellDated, WellNamed, Specificity;
    if Tie(contracts, q) {
      var a, b :| a in contracts && b in contracts && RegionOnly(a) && TierOnly(b) && ContractMatches(a, q) && ContractMatches(b, q);
      TieSpecificity(a, b);
      var p := MovedFirst(contracts, a, q);
      var r := MovedFirst(contracts, b, q);
      assert Winner(p, q) != Winner(r, q);
    } else {
      forall other | multiset(other) == multiset(contracts) ensures Winner(other, q) == Winner(contracts, q) {
        OrderIrrelevant(contracts, other, q);
      }
    }
  }

  lemma TieSpecificity(a: Contract, b: Contract)
    requires RegionOnly(a) && TierOnly(b)
    ensures Specificity(a) == 3 && Specificity(b) == 3 && a != b
  {
  }

  lemma MovedFirst(contracts: seq<Contract>, c: Contract, q: Query) returns (moved: seq<Contract>)
    requires c in contracts && ContractMatches(c, q)
    requires forall d :: d in contracts && ContractMatches(d, q) ==> Specificity(d) <= Specificity(c)
    ensures multiset(moved) == multiset(contracts) && Winner(moved, q) == Some(c)
  {
    hide ContractMatches, Winner, Specificity;
    var i :| 0 <= i < |contracts| && contracts[i] == c;
    var rest := contracts[..i] + contracts[i + 1..];
    assert contracts == contracts[..i] + [c] + contracts[i + 1..];
    FirstWins(c, rest, q);
    moved := [c] + rest;
  }

  // ----- the public list -----

  datatype ListPrice = ListPrice(price: real, from: Option<int>, through: Option<int>)

  predicate Listed(models: map<string, ListPrice>, model: string, key: string) {
    key in models && key <= model && VersionSuffix(model[|key|..]) && key != ""
  }

  /** An exact entry, else the longest entry the model is a version of. */
  ghost predicate LookupIs(models: map<string, ListPrice>, model: string, key: Option<string>) {
    if model in models then key == Some(model)
    else match key
      case None => forall k :: k in models ==> !Listed(models, model, k)
      case Some(found) => Listed(models, model, found) && forall k :: k in models && Listed(models, model, k) ==> |k| <= |found|
  }

  /** There is only one such entry, so the order of the list cannot matter. */
  lemma LookupIsFunction(models: map<string, ListPrice>, model: string, a: Option<string>, b: Option<string>)
    requires LookupIs(models, model, a) && LookupIs(models, model, b)
    ensures a == b
  {
    if a.Some? && b.Some? && model !in models {
      assert a.value == model[..|a.value|] && b.value == model[..|b.value|];
    }
  }

  method LookupWithKey(models: map<string, ListPrice>, model: string) returns (key: Option<string>)
    ensures LookupIs(models, model, key)
  {
    if model in models {
      return Some(model);
    }
    var best := "";
    var left := models.Keys;
    while left != {}
      invariant left <= models.Keys
      invariant best == "" || Listed(models, model, best)
      invariant forall k :: k in models && k !in left && Listed(models, model, k) ==> |k| <= |best|
      decreases |left|
    {
      var candidate :| candidate in left;
      if candidate <= model && VersionSuffix(model[|candidate|..]) && |candidate| > |best| {
        best := candidate;
      }
      left := left - {candidate};
    }
    return if best == "" then None else Some(best);
  }

  // ----- resolution -----

  datatype Resolution = Unknown | ProviderFinal(amount: real) | FromContract(contract: Contract) | PublicList(key: string, price: real)

  predicate ValidFinalCost(v: real) { 0.0 <= v <= 1_000_000_000.0 }

  method Resolve(contracts: seq<Contract>, models: map<string, ListPrice>, q: Query, final: Option<real>) returns (r: Resolution)
    ensures final.Some? ==> r == if ValidFinalCost(final.value) then ProviderFinal(final.value) else Unknown
    ensures final.None? && Winner(contracts, q).Some? ==> r == FromContract(Winner(contracts, q).value)
    ensures final.None? && Winner(contracts, q).None? ==>
              exists key :: LookupIs(models, q.model, key) && r == ListResolution(models, key, q.date)
  {
    hide LookupIs;
    if final.Some? {
      return if ValidFinalCost(final.value) then ProviderFinal(final.value) else Unknown;
    }
    var winner := SelectContract(contracts, q);
    if winner.Some? {
      return FromContract(winner.value);
    }
    var key := LookupWithKey(models, q.model);
    return ListResolution(models, key, q.date);
  }

  function ListResolution(models: map<string, ListPrice>, key: Option<string>, date: int): Resolution {
    if key.None? || key.value !in models then Unknown
    else
      var entry := models[key.value];
      if (entry.from.Some? && date < entry.from.value) || (entry.through.Some? && date > entry.through.value) then Unknown
      else PublicList(key.value, entry.price)
  }

  /** A list entry prices the dates from its first through its last, and no others. */
  lemma ListedExactly(models: map<string, ListPrice>, key: Option<string>, date: int, found: string, price: real)
    ensures ListResolution(models, key, date) == PublicList(found, price)
            <==> key == Some(found) && found in models && price == models[found].price
                 && (match models[found].from case Some(from) => from <= date case None => true)
                 && (match models[found].through case Some(through) => date <= through case None => true)
    ensures ListResolution(models, key, date).PublicList? || ListResolution(models, key, date).Unknown?
  {
  }

  /** Resolution is a function of the sets of contracts and list entries when nothing ties. */
  lemma ResolutionIsFunction(contracts: seq<Contract>, other: seq<Contract>, models: map<string, ListPrice>, q: Query, a: Option<string>, b: Option<string>)
    requires Accepted(contracts) && multiset(other) == multiset(contracts) && q.date <= LAST_DAY && !Tie(contracts, q)
    requires LookupIs(models, q.model, a) && LookupIs(models, q.model, b)
    ensures Winner(other, q) == Winner(contracts, q) && ListResolution(models, a, q.date) == ListResolution(models, b, q.date)
  {
    OrderIrrelevant(contracts, other, q);
    LookupIsFunction(models, q.model, a, b);
  }

  /** The tie is real: an accepted pair whose winner is whichever is listed first. */
  lemma TiedPair()
    ensures var a := Contract("a", "p", "m", "eu", "", 0, None, 1.0);
            var b := Contract("b", "p", "m", "", "batch", 0, None, 2.0);
            var q := Query("p", "m", "eu", "batch", 0);
            Accepted([a, b]) && Accepted([b, a]) && Winner([a, b], q) == Some(a) && Winner([b, a], q) == Some(b)
  {
    var a := Contract("a", "p", "m", "eu", "", 0, None, 1.0);
    var b := Contract("b", "p", "m", "", "batch", 0, None, 2.0);
    var q := Query("p", "m", "eu", "batch", 0);
    assert |Fold("eu")| != |Fold("")| && a.id != b.id;
    assert [a, b][..1] == [a] && [b, a][..1] == [b];
    FirstWins(a, [b], q);
    FirstWins(b, [a], q);
    assert [a] + [b] == [a, b] && [b] + [a] == [b, a];
  }
}
