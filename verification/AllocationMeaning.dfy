/** What a proposal rests on, said without the functions that compute it: which day a call falls on,
    what it counts in millionths, which calls the replay blocks, and how tight the percentile is. */
module AllocationMeaning {
  import opened Common
  import opened Allocation
  import opened Sorting

  /** The nearest millionth, halves going up, of an amount in range; nothing outside it. */
  lemma MicrosExactly(value: real, m: int)
    ensures DollarsToMicros(value) == Some(m)
            <==> 0.0 <= value <= ((MAX_INT64 - MICROS) as real) / (MICROS as real)
                 && m as real - 0.5 <= value * 1000000.0 < m as real + 0.5
  {
    if 0.0 <= value <= ((MAX_INT64 - MICROS) as real) / (MICROS as real) {
      NearestWhole(value * 1000000.0, m);
    }
  }

  lemma NearestWhole(x: real, m: int)
    ensures (x + 0.5).Floor == m <==> m as real - 0.5 <= x < m as real + 0.5
  {
    var f := (x + 0.5).Floor;
    assert f as real <= x + 0.5 < f as real + 1.0;
    if m as real - 0.5 <= x < m as real + 0.5 {
      assert m as real < (f + 1) as real && f as real < (m + 1) as real;
    }
  }

  /** Day `d` of the history lasts from `d` to `d + 1` days after its start. */
  lemma DayExactly(call: Call, from: int, d: int)
    ensures DayOf(call, from) == d <==> from + d * DAY <= call.ts < from + (d + 1) * DAY
  {
    var t := call.ts - from;
    var k := t / DAY;
    assert t == k * DAY + t % DAY;
    if k < d { ProductMonotone(k + 1, d, DAY); }
    if k > d { ProductMonotone(d + 1, k, DAY); }
  }

  // ----- what a scope spends -----

  predicate Priced(call: Call, scope: string) { call.attribution == To(scope) && call.priced && DollarsToMicros(call.cost).Some? }

  /** What a scope's priced calls cost at times in [start, end). */
  function SpentBy(calls: seq<Call>, scope: string, start: int, end: int): int {
    if calls == [] then 0
    else
      var last := calls[|calls| - 1];
      SpentBy(calls[..|calls| - 1], scope, start, end)
      + (if Priced(last, scope) && start <= last.ts < end then DollarsToMicros(last.cost).value else 0)
  }

  /** Each day's sum is what the scope's priced calls of that day cost. */
  lemma {:induction false} DayIsSpend(calls: seq<Call>, from: int, scope: string, d: int)
    ensures SpendOn(EventsOf(calls, from, scope), d) == SpentBy(calls, scope, from + d * DAY, from + (d + 1) * DAY)
  {
    hide DollarsToMicros, DayOf;
    if calls != [] {
      var n := |calls| - 1;
      var front := EventsOf(calls[..n], from, scope);
      DayIsSpend(calls[..n], from, scope, d);
      DayExactly(calls[n], from, d);
      assert front + [] == front;
      if Priced(calls[n], scope) {
        SpendOnAppend(front, Added(calls[n], from)[0], d);
      }
    }
  }

  lemma SpendOnAppend(events: seq<Event>, e: Event, d: int)
    ensures SpendOn(events + [e], d) == SpendOn(events, d) + (if e.day == d then e.cost else 0)
  {
    assert (events + [e])[..|events|] == events;
  }

  /** And the total is what all of them cost. */
  lemma {:induction false} TotalIsSpend(calls: seq<Call>, from: int, scope: string, days: nat)
    requires forall i :: 0 <= i < |calls| ==> from <= calls[i].ts < from + days * DAY
    ensures Spend(EventsOf(calls, from, scope)) == SpentBy(calls, scope, from, from + days * DAY)
  {
    hide DollarsToMicros, DayOf;
    if calls != [] {
      var n := |calls| - 1;
      var front := EventsOf(calls[..n], from, scope);
      TotalIsSpend(calls[..n], from, scope, days);
      assert front + [] == front;
      if Priced(calls[n], scope) {
        AddedSpend(front, Added(calls[n], from)[0]);
      }
    }
  }

  // ----- what the replay blocks -----

  /** What is let through of a day among the first `n` calls, going by `blocked`. */
  function LetThrough(events: seq<Event>, blocked: seq<bool>, n: nat, day: int): int
    requires n <= |events| == |blocked|
  {
    if n == 0 then 0
    else LetThrough(events, blocked, n - 1, day) + (if events[n - 1].day == day && !blocked[n - 1] then events[n - 1].cost else 0)
  }

  ghost predicate Replayed(events: seq<Event>, cap: int, blocked: seq<bool>, n: nat)
    requires n <= |events| == |blocked|
  {
    forall i :: 0 <= i < n ==> (blocked[i] <==> Refused(events, cap, i))
  }

  /** A call is blocked exactly when it does not fit beside what was let through that day. */
  ghost predicate Greedy(events: seq<Event>, cap: int, blocked: seq<bool>, n: nat)
    requires n <= |events| == |blocked|
  {
    forall i :: 0 <= i < n ==> (blocked[i] <==> LetThrough(events, blocked, i, events[i].day) + events[i].cost > cap)
  }

  lemma {:induction false} LetThroughIsUsed(events: seq<Event>, cap: int, blocked: seq<bool>, n: nat, day: int)
    requires n <= |events| == |blocked| && Replayed(events, cap, blocked, n)
    ensures LetThrough(events, blocked, n, day) == UsedOn(events, cap, n, day)
  {
    hide Refused;
    if n > 0 {
      LetThroughIsUsed(events, cap, blocked, n - 1, day);
    }
  }

  /** The replay is the one way to block calls that way: a blocked call really does not fit, and no
      call that fits is blocked. */
  lemma {:induction false} ReplayIsGreedy(events: seq<Event>, cap: int, blocked: seq<bool>, n: nat)
    requires n <= |events| == |blocked|
    ensures Replayed(events, cap, blocked, n) <==> Greedy(events, cap, blocked, n)
  {
    hide UsedOn;
    if n > 0 {
      ReplayIsGreedy(events, cap, blocked, n - 1);
      if Replayed(events, cap, blocked, n - 1) {
        LetThroughIsUsed(events, cap, blocked, n - 1, events[n - 1].day);
      }
    }
  }

  /** The calls counted as blocked are those. */
  lemma {:induction false} CallsExactly(events: seq<Event>, cap: int, blocked: seq<bool>, n: nat)
    requires n <= |events| == |blocked| && Replayed(events, cap, blocked, n)
    ensures RefusedCalls(events, cap, n) == |set i | 0 <= i < n && blocked[i]|
  {
    hide Refused;
    if n > 0 {
      CallsExactly(events, cap, blocked, n - 1);
      var before, now := set i | 0 <= i < n - 1 && blocked[i], set i | 0 <= i < n && blocked[i];
      assert now == if blocked[n - 1] then before + {n - 1} else before;
    }
  }

  /** The replay takes calls by time, and those of one instant by their ids. */
  lemma ReplayOrder(events: seq<Event>, i: nat, j: nat)
    requires i < j < |events|
    ensures var a, b := StableSort(events, EventBefore)[i], StableSort(events, EventBefore)[j];
            a.ts < b.ts || (a.ts == b.ts && a.id <= b.id)
  {
    assert StrictWeakOrder(EventBefore);
    StableSortSorted(events, EventBefore);
    assert !EventBefore(StableSort(events, EventBefore)[j], StableSort(events, EventBefore)[i]);
  }

  // ----- how tight the base is -----

  lemma {:induction false} AtMostBelow(s: seq<int>, k: nat, x: int)
    requires k <= |s| && forall i :: k <= i < |s| ==> s[i] > x
    ensures AtMost(s, x) <= k
  {
    if s != [] {
      AtMostBelow(s[..|s| - 1], if k < |s| then k else k - 1, x);
    }
  }

  lemma IndexBelow(percent: int, n: nat, raised: bool)
    requires 0 < percent < 100 && n > 0
    ensures PercentileIndex(percent, n, raised) * 100 <= percent * n
    ensures !raised ==> PercentileIndex(percent, n, raised) * 100 < percent * n
  {
    PercentileBounds(percent, n);
    var exact := CeilDiv(percent * n, 100);
    if percent * n % 100 == 0 {
      CeilFromFloor(percent * n, 100);
      assert exact * 100 == percent * n;
    }
  }

  /** Of days that spent less than the percentile day there are too few to make up the percentile. */
  lemma PercentileIsLeast(daily: seq<int>, percent: int, raised: bool, x: int)
    requires 0 < percent < 100 && daily != []
    requires x < StableSort(daily, Less)[PercentileIndex(percent, |daily|, raised)]
    ensures AtMost(daily, x) * 100 <= percent * |daily|
    ensures !raised ==> AtMost(daily, x) * 100 < percent * |daily|
  {
    hide CeilDiv, PercentileIndex, AtMost, StableSort;
    var n, index := |daily|, PercentileIndex(percent, |daily|, raised);
    var sorted := StableSort(daily, Less);
    forall i | index <= i < n ensures sorted[i] > x {
      if index < i {
        InOrder(daily, index, i);
      }
    }
    AtMostBelow(sorted, index, x);
    AtMostSorted(daily, x);
    IndexBelow(percent, n, raised);
  }

  /** The recent pace is the mean of the last seven days, rounded down. */
  lemma RecentExactly(daily: seq<int>)
    requires |daily| >= 7
    ensures var n := |daily|;
            var week := daily[n - 7] + daily[n - 6] + daily[n - 5] + daily[n - 4] + daily[n - 3] + daily[n - 2] + daily[n - 1];
            7 * Recent(daily) <= week < 7 * (Recent(daily) + 1)
  {
    var w := daily[|daily| - 7..];
    assert SumOf(w) == w[0] + w[1] + w[2] + w[3] + w[4] + w[5] + w[6] by {
      SumAppend(w, 7); SumAppend(w, 6); SumAppend(w, 5); SumAppend(w, 4); SumAppend(w, 3); SumAppend(w, 2); SumAppend(w, 1);
      assert w[..7] == w && w[..0] == [];
    }
  }

  lemma SumAppend(s: seq<int>, n: nat)
    requires 0 < n <= |s|
    ensures SumOf(s[..n]) == SumOf(s[..n - 1]) + s[n - 1]
  {
    assert s[..n][..n - 1] == s[..n - 1];
  }
}
