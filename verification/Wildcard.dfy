/** Selector matching: `*` stands for any run of code points, `?` for exactly one.
    The matcher remembers only the most recent star; this module shows when that is enough. */
module Wildcard {

  /** What a selector means, independently of how it is searched for. */
  ghost predicate Matches(p: string, v: string)
    decreases |p|
  {
    if p == [] then v == []
    else if p[0] == '*' then exists k :: 0 <= k <= |v| && Matches(p[1..], v[k..])
    else v != [] && (p[0] == '?' || p[0] == v[0]) && Matches(p[1..], v[1..])
  }

  /** The search from one loop state on: `star` is the last star seen (-1 for none) and
      `retry` the value position its next attempt starts from. */
  predicate Search(p: string, v: string, pi: nat, vi: nat, star: int, retry: nat)
    requires pi <= |p| && vi <= |v| && -1 <= star < pi && retry <= vi
    decreases |p| - star, |v| - retry, |v| - vi
  {
    if vi < |v| then
      if pi < |p| && (p[pi] == '?' || p[pi] == v[vi]) then Search(p, v, pi + 1, vi + 1, star, retry)
      else if pi < |p| && p[pi] == '*' then Search(p, v, pi + 1, vi, pi, vi)
      else if star >= 0 then Search(p, v, star + 1, retry + 1, star, retry + 1)
      else false
    else
      AllStars(p[pi..])
  }

  predicate AllStars(p: string) {
    forall i :: 0 <= i < |p| ==> p[i] == '*'
  }

  predicate Selects(pattern: string, value: string) {
    Search(pattern, value, 0, 0, -1, 0)
  }

  method WildcardMatch(pattern: string, value: string) returns (matched: bool)
    ensures matched == Selects(pattern, value)
  {
    var pi, vi, star, retry := 0, 0, -1, 0;
    while vi < |value|
      invariant pi <= |pattern| && vi <= |value| && -1 <= star < pi && retry <= vi
      invariant Search(pattern, value, pi, vi, star, retry) == Selects(pattern, value)
      decreases |pattern| - star, |value| - retry, |value| - vi
    {
      if pi < |pattern| && (pattern[pi] == '?' || pattern[pi] == value[vi]) {
        pi, vi := pi + 1, vi + 1;
      } else if pi < |pattern| && pattern[pi] == '*' {
        star, retry := pi, vi;
        pi := pi + 1;
      } else if star >= 0 {
        pi := star + 1;
        retry := retry + 1;
        vi := retry;
      } else {
        return false;
      }
    }
    ghost var rest := pi;
    while pi < |pattern| && pattern[pi] == '*'
      invariant rest <= pi <= |pattern|
      invariant forall i :: rest <= i < pi ==> pattern[i] == '*'
    {
      pi := pi + 1;
    }
    assert pi < |pattern| ==> pattern[rest..][pi - rest] != '*';
    return pi == |pattern|;
  }

  predicate SelectsAny(patterns: seq<string>, value: string) {
    exists i :: 0 <= i < |patterns| && Selects(patterns[i], value)
  }

  method MatchesAny(patterns: seq<string>, value: string) returns (matched: bool)
    ensures matched == SelectsAny(patterns, value)
  {
    for i := 0 to |patterns|
      invariant forall j :: 0 <= j < i ==> !Selects(patterns[j], value)
    {
      var one := WildcardMatch(patterns[i], value);
      if one {
        return true;
      }
    }
    return false;
  }

  // ----- meaning of the search -----

  /** A piece of pattern without a star matches a piece of value of the same length. */
  ghost predicate Literal(p: string, v: string) {
    |p| == |v| && forall i :: 0 <= i < |p| ==> p[i] == '?' || p[i] == v[i]
  }

  /** `Literal` prefixes can be stripped, and nothing else can take their place. */
  lemma {:induction false} LiteralPrefix(s: string, p: string, v: string)
    requires forall i :: 0 <= i < |s| ==> s[i] != '*'
    ensures Matches(s + p, v) <==> |s| <= |v| && Literal(s, v[..|s|]) && Matches(p, v[|s|..])
  {
    if s == [] {
      assert s + p == p && v[0..] == v;
    } else {
      assert (s + p)[0] == s[0] && (s + p)[1..] == s[1..] + p;
      if v != [] {
        LiteralPrefix(s[1..], p, v[1..]);
        if |s| <= |v| {
          assert v[1..][|s| - 1..] == v[|s|..];
          assert v[1..][..|s| - 1] == v[..|s|][1..];
          if Literal(s, v[..|s|]) {
            assert forall i :: 0 <= i < |s| - 1 ==> s[1..][i] == s[i + 1];
          }
          if Literal(s[1..], v[1..][..|s| - 1]) && (s[0] == '?' || s[0] == v[0]) {
            forall i | 0 <= i < |s| ensures s[i] == '?' || s[i] == v[..|s|][i] {
              if i > 0 { assert s[1..][i - 1] == s[i]; }
            }
          }
        }
      }
    }
  }

  /** Literal matching where a pattern star may consume a value star. */
  lemma {:induction false} LooseLiteralPrefix(s: string, p: string, v: string)
    requires |s| <= |v| && Literal(s, v[..|s|]) && Matches(p, v[|s|..])
    ensures Matches(s + p, v)
  {
    if s == [] {
      assert s + p == p && v[0..] == v;
    } else {
      assert (s + p)[0] == s[0] && (s + p)[1..] == s[1..] + p;
      assert v[1..][|s| - 1..] == v[|s|..];
      assert v[1..][..|s| - 1] == v[..|s|][1..];
      LooseLiteralPrefix(s[1..], p, v[1..]);
      assert v[..|s|][0] == v[0];
    }
  }

  lemma {:induction false} EmptyValue(p: string)
    ensures Matches(p, []) <==> AllStars(p)
  {
    if p != [] {
      EmptyValue(p[1..]);
      if p[0] == '*' {
        var none: string := [];
        assert none[0..] == [];
        assert AllStars(p) ==> AllStars(p[1..]);
        if AllStars(p[1..]) {
          forall i | 0 <= i < |p| ensures p[i] == '*' {
            if i > 0 { assert p[1..][i - 1] == p[i]; }
          }
        }
      }
    }
  }

  lemma StarAbsorbs(p: string, v: string, from: nat, k: nat)
    requires p != [] && p[0] == '*' && from <= k <= |v| && Matches(p, v[k..])
    ensures Matches(p, v[from..])
  {
    var j :| 0 <= j <= |v[k..]| && Matches(p[1..], v[k..][j..]);
    assert v[k..][j..] == v[from..][k - from + j..];
  }

  /** Where a search state says the answer lies: the text still to be matched when no star has
      been passed, otherwise the last star against the text from its retry position. */
  ghost predicate Owed(p: string, v: string, pi: nat, vi: nat, star: int, retry: nat)
    requires pi <= |p| && vi <= |v| && -1 <= star < pi && retry <= vi
  {
    if star < 0 then Matches(p[pi..], v[vi..]) else Matches(p[star..], v[retry..])
  }

  ghost predicate Tracked(p: string, v: string, pi: nat, vi: nat, star: int, retry: nat) {
    pi <= |p| && vi <= |v| && -1 <= star < pi && retry <= vi &&
    (star >= 0 ==> p[star] == '*' && Literal(p[star + 1..pi], v[retry..vi]))
  }

  /** Every accepted value is a genuine match, whatever characters it holds. */
  lemma {:induction false} SearchSound(p: string, v: string, pi: nat, vi: nat, star: int, retry: nat)
    requires Tracked(p, v, pi, vi, star, retry) && Search(p, v, pi, vi, star, retry)
    ensures Owed(p, v, pi, vi, star, retry)
    decreases |p| - star, |v| - retry, |v| - vi
  {
    if vi < |v| {
      if pi < |p| && (p[pi] == '?' || p[pi] == v[vi]) {
        ExtendSegment(p, v, pi, vi, star, retry);
        SearchSound(p, v, pi + 1, vi + 1, star, retry);
        if star < 0 {
          assert p[pi..][1..] == p[pi + 1..] && v[vi..][1..] == v[vi + 1..];
          if p[pi] == '*' {
            assert v[vi..][1..] == v[vi + 1..];
          }
        }
      } else if pi < |p| && p[pi] == '*' {
        assert p[pi + 1..pi + 1] == [] && v[vi..vi] == [];
        SearchSound(p, v, pi + 1, vi, pi, vi);
        if star >= 0 {
          SegmentReaches(p, v, pi, vi, star, retry);
        }
      } else {
        assert p[star + 1..star + 1] == [] && v[retry + 1..retry + 1] == [];
        SearchSound(p, v, star + 1, retry + 1, star, retry + 1);
        StarAbsorbs(p[star..], v, retry, retry + 1);
      }
    } else {
      EmptyValue(p[pi..]);
      assert v[vi..] == [];
      if star >= 0 {
        SegmentReaches(p, v, pi, vi, star, retry);
      }
    }
  }

  lemma ExtendSegment(p: string, v: string, pi: nat, vi: nat, star: int, retry: nat)
    requires Tracked(p, v, pi, vi, star, retry)
    requires pi < |p| && vi < |v| && (p[pi] == '?' || p[pi] == v[vi])
    ensures Tracked(p, v, pi + 1, vi + 1, star, retry)
  {
    if star >= 0 {
      assert p[star + 1..pi + 1] == p[star + 1..pi] + [p[pi]];
      assert v[retry..vi + 1] == v[retry..vi] + [v[vi]];
    }
  }

  /** With the segment since the last star in place, matching the rest matches from the star. */
  lemma SegmentReaches(p: string, v: string, pi: nat, vi: nat, star: int, retry: nat)
    requires Tracked(p, v, pi, vi, star, retry) && star >= 0
    requires Matches(p[pi..], v[vi..])
    ensures Matches(p[star..], v[retry..])
  {
    var s := p[star + 1..pi];
    assert v[retry..][..|s|] == v[retry..vi] && v[retry..][|s|..] == v[vi..];
    LooseLiteralPrefix(s, p[pi..], v[retry..]);
    assert p[star..][1..] == s + p[pi..];
    assert v[retry..][0..] == v[retry..];
  }

  /** Nothing is lost by forgetting earlier stars, provided the value holds no star that a
      pattern star could consume as a literal. */
  lemma {:induction false} SearchComplete(p: string, v: string, pi: nat, vi: nat, star: int, retry: nat)
    requires '*' !in v
    requires Tracked(p, v, pi, vi, star, retry) && Owed(p, v, pi, vi, star, retry)
    requires star >= 0 ==> forall i :: star < i < pi ==> p[i] != '*'
    ensures Search(p, v, pi, vi, star, retry)
    decreases |p| - star, |v| - retry, |v| - vi
  {
    if vi < |v| {
      if pi < |p| && (p[pi] == '?' || p[pi] == v[vi]) {
        assert p[pi] != '*';
        ExtendSegment(p, v, pi, vi, star, retry);
        if star < 0 {
          assert p[pi..][1..] == p[pi + 1..] && v[vi..][1..] == v[vi + 1..];
        }
        SearchComplete(p, v, pi + 1, vi + 1, star, retry);
      } else if pi < |p| && p[pi] == '*' {
        assert p[pi + 1..pi + 1] == [] && v[vi..vi] == [];
        if star >= 0 {
          SegmentForced(p, v, pi, vi, star, retry);
        }
        SearchComplete(p, v, pi + 1, vi, pi, vi);
      } else if star >= 0 {
        RetryForced(p, v, pi, vi, star, retry);
        assert p[star + 1..star + 1] == [] && v[retry + 1..retry + 1] == [];
        SearchComplete(p, v, star + 1, retry + 1, star, retry + 1);
      }
    } else {
      assert v[vi..] == [];
      if star >= 0 {
        var k := StarChoice(p, v, pi, star, retry);
        assert k == retry && v[k + (pi - star - 1)..] == [];
      }
      EmptyValue(p[pi..]);
    }
  }

  /** Any way of matching from the last star places the segment at some `k` and the rest after it. */
  lemma StarChoice(p: string, v: string, pi: nat, star: nat, retry: nat) returns (k: nat)
    requires star < pi <= |p| && retry <= |v| && p[star] == '*'
    requires forall i :: star < i < pi ==> p[i] != '*'
    requires Matches(p[star..], v[retry..])
    ensures retry <= k && k + (pi - star - 1) <= |v|
    ensures Literal(p[star + 1..pi], v[k..k + (pi - star - 1)])
    ensures Matches(p[pi..], v[k + (pi - star - 1)..])
  {
    var s := p[star + 1..pi];
    var j :| 0 <= j <= |v[retry..]| && Matches(p[star..][1..], v[retry..][j..]);
    k := retry + j;
    assert p[star..][1..] == s + p[pi..] && v[retry..][j..] == v[k..];
    LiteralPrefix(s, p[pi..], v[k..]);
    assert v[k..][..|s|] == v[k..k + |s|] && v[k..][|s|..] == v[k + |s|..];
  }

  lemma SegmentForced(p: string, v: string, pi: nat, vi: nat, star: nat, retry: nat)
    requires Tracked(p, v, pi, vi, star, retry) && Owed(p, v, pi, vi, star, retry)
    requires forall i :: star < i < pi ==> p[i] != '*'
    requires pi < |p| && p[pi] == '*'
    ensures Matches(p[pi..], v[vi..])
  {
    var k := StarChoice(p, v, pi, star, retry);
    StarAbsorbs(p[pi..], v, vi, k + (pi - star - 1));
  }

  lemma RetryForced(p: string, v: string, pi: nat, vi: nat, star: nat, retry: nat)
    requires Tracked(p, v, pi, vi, star, retry) && Owed(p, v, pi, vi, star, retry)
    requires forall i :: star < i < pi ==> p[i] != '*'
    requires vi < |v| && (pi < |p| ==> p[pi] != '*' && p[pi] != '?' && p[pi] != v[vi])
    ensures Matches(p[star..], v[retry + 1..])
  {
    var k := StarChoice(p, v, pi, star, retry);
    assert k != retry;
    LooseLiteralAt(p, v, pi, star, k);
    assert v[k..] == v[retry + 1..][k - (retry + 1)..];
  }

  lemma LooseLiteralAt(p: string, v: string, pi: nat, star: nat, k: nat)
    requires star < pi <= |p| && k + (pi - star - 1) <= |v|
    requires Literal(p[star + 1..pi], v[k..k + (pi - star - 1)])
    requires Matches(p[pi..], v[k + (pi - star - 1)..])
    ensures Matches(p[star..][1..], v[k..])
  {
    var s := p[star + 1..pi];
    assert v[k..][..|s|] == v[k..k + |s|] && v[k..][|s|..] == v[k + |s|..];
    LooseLiteralPrefix(s, p[pi..], v[k..]);
    assert p[star..][1..] == s + p[pi..];
  }

  lemma SelectsOnlyMatches(p: string, v: string)
    requires Selects(p, v)
    ensures Matches(p, v)
  {
    SearchSound(p, v, 0, 0, -1, 0);
    assert p[0..] == p && v[0..] == v;
  }

  /** A value holding a star is mismatched by some selector: one that spells the value up to the
      star, then a star, then one `?` more than the text after it. */
  lemma StarInValueMisleads(v: string, at: nat) returns (p: string)
    requires at < |v| && v[at] == '*' && '*' !in v[..at]
    ensures Matches(p, v) && !Selects(p, v)
  {
    var tail := seq(|v| - at, _ => '?');
    p := v[..at] + ['*'] + tail;
    var rest := ['*'] + tail;
    assert p == v[..at] + rest;
    MarksMatch(tail, v[at..]);
    assert rest[1..] == tail && v[at..][0..] == v[at..];
    assert Matches(rest, v[at..]);
    LooseLiteralPrefix(v[..at], rest, v);
    StarConsumed(p, v, at, 0);
  }

  lemma {:induction false} MarksMatch(marks: string, v: string)
    requires |marks| == |v| && forall i :: 0 <= i < |marks| ==> marks[i] == '?'
    ensures Matches(marks, v)
  {
    if marks != [] {
      MarksMatch(marks[1..], v[1..]);
    }
  }

  lemma {:induction false} StarConsumed(p: string, v: string, at: nat, i: nat)
    requires at < |v| && |p| == |v| + 1 && v[at] == '*' && p[at] == '*' && i <= |v|
    requires forall j :: 0 <= j < |p| ==> p[j] == (if j < at then v[j] else if j == at then '*' else '?')
    ensures !Search(p, v, i, i, -1, 0)
    decreases |v| - i
  {
    if i < |v| {
      StarConsumed(p, v, at, i + 1);
    } else {
      assert p[i..][0] == '?';
    }
  }

  /** The matcher decides every selector correctly for a value exactly when that value holds no
      star; a value with a star is still never accepted wrongly (`SelectsOnlyMatches`). */
  lemma MatcherExactness(v: string)
    ensures (forall p: string :: Selects(p, v) <==> Matches(p, v)) <==> '*' !in v
  {
    if '*' !in v {
      forall p: string ensures Selects(p, v) <==> Matches(p, v) {
        if Selects(p, v) {
          SelectsOnlyMatches(p, v);
        }
        if Matches(p, v) {
          assert p[0..] == p && v[0..] == v;
          SearchComplete(p, v, 0, 0, -1, 0);
        }
      }
    } else {
      var at := FirstStar(v);
      var p := StarInValueMisleads(v, at);
    }
  }

  lemma {:induction false} FirstStar(v: string) returns (at: nat)
    requires '*' in v
    ensures at < |v| && v[at] == '*' && '*' !in v[..at]
  {
    if v[0] == '*' {
      at := 0;
    } else {
      var rest := FirstStar(v[1..]);
      at := rest + 1;
      assert v[..at] == [v[0]] + v[1..][..rest];
    }
  }
}
