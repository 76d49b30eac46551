/** How much of a forked session's usage was inherited: the longest prefix of the child's records
    that ends the parent's, found with a table of borders. */
module PrefixMatch {
  import opened CodexTypes

  /** The first `k` items of `pattern` end `text`. */
  ghost predicate Ends(pattern: seq<Totals>, text: seq<Totals>, k: nat) {
    k <= |pattern| && k <= |text| && pattern[..k] == text[|text| - k..]
  }

  /** The longest such `k` below `limit`. */
  ghost predicate LongestBelow(pattern: seq<Totals>, text: seq<Totals>, k: nat, limit: nat) {
    k < limit && Ends(pattern, text, k) && forall j :: k < j < limit ==> !Ends(pattern, text, j)
  }

  /** Every table entry is the longest proper border of its prefix. */
  ghost predicate Borders(pattern: seq<Totals>, table: seq<nat>) {
    |table| <= |pattern|
    && forall i :: 0 <= i < |table| ==> LongestBelow(pattern, pattern[..i + 1], table[i], i + 1)
  }

  /** Below a known match, matches of the text are borders of the matched prefix. */
  lemma EndsWithin(pattern: seq<Totals>, text: seq<Totals>, m: nat, k: nat)
    requires Ends(pattern, text, m) && k <= m
    ensures Ends(pattern, text, k) <==> Ends(pattern, pattern[..m], k)
  {
    assert pattern[..m][m - k..] == text[|text| - m..][m - k..] == text[|text| - k..];
  }

  lemma EndsExtended(pattern: seq<Totals>, text: seq<Totals>, item: Totals, k: nat)
    requires k < |pattern|
    ensures Ends(pattern, text + [item], k + 1) <==> Ends(pattern, text, k) && pattern[k] == item
  {
    if k <= |text| {
      assert (text + [item])[|text| - k..] == text[|text| - k..] + [item];
      assert pattern[..k + 1] == pattern[..k] + [pattern[k]];
    }
  }

  /** No match longer than `m`, below `limit`, can be extended by `item`. */
  ghost predicate NoneLongerExtends(pattern: seq<Totals>, text: seq<Totals>, item: Totals, m: nat, limit: nat) {
    forall k :: m < k < limit && k < |pattern| && Ends(pattern, text, k) ==> pattern[k] != item
  }

  /** Falling back along the table finds the longest match the next item extends. */
  method FallBack(pattern: seq<Totals>, table: array<nat>, filled: nat, start: nat, item: Totals, ghost text: seq<Totals>, ghost limit: nat)
    returns (matched: nat)
    requires limit <= |pattern| && filled <= table.Length && start <= filled && limit <= filled + 1
    requires Borders(pattern, table[..filled]) && LongestBelow(pattern, text, start, limit)
    ensures matched < limit && Ends(pattern, text, matched) && NoneLongerExtends(pattern, text, item, matched, limit)
    ensures matched == 0 || pattern[matched] == item
  {
    matched := start;
    while matched > 0 && item != pattern[matched]
      invariant matched < limit && Ends(pattern, text, matched)
      invariant NoneLongerExtends(pattern, text, item, matched, limit)
    {
      var shorter := table[matched - 1];
      assert table[..filled][matched - 1] == shorter;
      forall k | shorter < k < matched ensures !Ends(pattern, text, k) {
        EndsWithin(pattern, text, matched, k);
      }
      EndsWithin(pattern, text, matched, shorter);
      matched := shorter;
    }
  }

  /** After one more item, the longest match is the extended one, or none. */
  lemma Extended(pattern: seq<Totals>, text: seq<Totals>, item: Totals, m: nat, limit: nat)
    requires limit <= |pattern| && m < limit && Ends(pattern, text, m)
    requires NoneLongerExtends(pattern, text, item, m, limit) && (m == 0 || pattern[m] == item)
    ensures LongestBelow(pattern, text + [item], if pattern[m] == item then m + 1 else 0, limit + 1)
  {
    forall k | (if pattern[m] == item then m + 1 else 0) < k < limit + 1 ensures !Ends(pattern, text + [item], k) {
      EndsExtended(pattern, text, item, k - 1);
    }
    EndsExtended(pattern, text, item, m);
  }

  /** The border table of the child's records. */
  method BorderTable(pattern: seq<Totals>) returns (table: array<nat>)
    requires pattern != []
    ensures fresh(table) && table.Length == |pattern| && Borders(pattern, table[..])
  {
    hide Ends, LongestBelow, NoneLongerExtends, Borders;
    table := new nat[|pattern|](_ => 0);
    var matched := 0;
    FirstBorder(pattern);
    assert table[..1] == [0];
    for i := 1 to |pattern|
      invariant Borders(pattern, table[..i]) && matched == table[i - 1]
    {
      // Proper borders of pattern[..i] are matches ending pattern[1..i].
      ghost var text, before := pattern[1..i], table[..i];
      LastBorder(pattern, before);
      matched := FallBack(pattern, table, i, matched, pattern[i], text, i);
      Extended(pattern, text, pattern[i], matched, i);
      assert text + [pattern[i]] == pattern[1..i + 1];
      if pattern[i] == pattern[matched] {
        matched := matched + 1;
      }
      table[i] := matched;
      BordersAppend(pattern, before, matched);
      assert table[..i + 1] == before + [matched];
    }
    assert table[..] == table[..|pattern|];
  }

  lemma FirstBorder(pattern: seq<Totals>)
    requires pattern != []
    ensures Borders(pattern, [0])
  {
    assert Ends(pattern, pattern[..1], 0);
  }

  lemma LastBorder(pattern: seq<Totals>, table: seq<nat>)
    requires Borders(pattern, table) && table != []
    ensures LongestBelow(pattern, pattern[1..|table|], table[|table| - 1], |table|)
  {
    ProperBorders(pattern, |table|);
  }

  lemma BordersAppend(pattern: seq<Totals>, table: seq<nat>, m: nat)
    requires Borders(pattern, table) && |table| < |pattern|
    requires LongestBelow(pattern, pattern[1..|table| + 1], m, |table| + 1)
    ensures Borders(pattern, table + [m])
  {
    hide Ends;
    ProperBorders(pattern, |table| + 1);
    assert LongestBelow(pattern, pattern[..|table| + 1], m, |table| + 1);
    hide LongestBelow;
  }

  lemma ProperBorders(pattern: seq<Totals>, n: nat)
    requires 1 <= n <= |pattern|
    ensures forall k :: 0 <= k < n ==> (Ends(pattern, pattern[1..n], k) <==> Ends(pattern, pattern[..n], k))
  {
    forall k | 0 <= k < n ensures Ends(pattern, pattern[1..n], k) <==> Ends(pattern, pattern[..n], k) {
      assert pattern[1..n][n - 1 - k..] == pattern[n - k..n] == pattern[..n][n - k..];
    }
  }

  /** After a whole match, the longest shorter one is the pattern's own longest border. */
  lemma AfterWhole(pattern: seq<Totals>, table: seq<nat>, text: seq<Totals>)
    requires pattern != [] && Borders(pattern, table) && |table| == |pattern| && Ends(pattern, text, |pattern|)
    ensures LongestBelow(pattern, text, table[|pattern| - 1], |pattern|)
  {
    assert pattern[..|pattern|] == pattern;
    forall k | 0 <= k < |pattern| ensures Ends(pattern, text, k) <==> Ends(pattern, pattern, k) {
      EndsWithin(pattern, text, |pattern|, k);
    }
  }

  /** A match below one past the whole pattern is whole, or the longest partial one. */
  lemma WholeOrPartial(pattern: seq<Totals>, text: seq<Totals>, m: nat)
    requires LongestBelow(pattern, text, m, |pattern| + 1)
    ensures m == |pattern| ==> Ends(pattern, text, |pattern|)
    ensures m != |pattern| ==> LongestBelow(pattern, text, m, |pattern|) && !Ends(pattern, text, |pattern|)
    ensures LongestOf(pattern, text, m)
  {
  }

  ghost predicate LongestOf(pattern: seq<Totals>, text: seq<Totals>, k: nat) {
    Ends(pattern, text, k) && forall j :: k < j <= |pattern| ==> !Ends(pattern, text, j)
  }

  lemma NothingYet(pattern: seq<Totals>, text: seq<Totals>)
    requires pattern == [] || text == []
    ensures LongestOf(pattern, text, 0) && (pattern != [] ==> LongestBelow(pattern, text, 0, |pattern|))
  {
  }

  /** The longest prefix of the child that is a suffix of the parent. */
  method PrefixAtParentEnd(child: seq<Totals>, parent: seq<Totals>) returns (matched: nat)
    ensures LongestOf(child, parent, matched)
  {
    hide NoneLongerExtends, Borders, Ends, LongestBelow, LongestOf;
    if child == [] || parent == [] {
      NothingYet(child, parent);
      return 0;
    }
    var table := BorderTable(child);
    assert table[..|child|] == table[..];
    matched := 0;
    NothingYet(child, parent[..0]);
    for i := 0 to |parent|
      invariant matched < |child| && LongestBelow(child, parent[..i], matched, |child|)
      invariant Borders(child, table[..]) && table[..|child|] == table[..]
      invariant 0 < i == |parent| ==> LongestOf(child, parent, matched)
    {
      ghost var text := parent[..i];
      matched := FallBack(child, table, |child|, matched, parent[i], text, |child|);
      Extended(child, text, parent[i], matched, |child|);
      assert text + [parent[i]] == parent[..i + 1];
      assert i == |parent| - 1 ==> parent[..i + 1] == parent;
      WholeOrPartial(child, parent[..i + 1], if parent[i] == child[matched] then matched + 1 else 0);
      if parent[i] == child[matched] {
        matched := matched + 1;
        if matched == |child| {
          if i == |parent| - 1 {
            return;
          }
          AfterWhole(child, table[..], parent[..i + 1]);
          matched := table[matched - 1];
        }
      }
      BelowPattern(child, parent[..i + 1], matched);
    }
  }

  lemma BelowPattern(pattern: seq<Totals>, text: seq<Totals>, m: nat)
    ensures LongestBelow(pattern, text, m, |pattern|) ==> m < |pattern|
  {
  }
}
