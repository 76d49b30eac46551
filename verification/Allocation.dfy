/** Daily budgets proposed from history: exact fixed-point arithmetic, a cap that covers the chosen
    percentile of days and the recent pace, and a replay of what the cap would have blocked. */
module Allocation {
  import opened Common
  import Sorting

  // ----- checked 64-bit arithmetic -----

  function CeilDiv(a: int, b: int): (r: int)
    requires b > 0
    ensures (r - 1) * b < a <= r * b
  {
    (a + b - 1) / b
  }

  /** The 128-bit product in two words, divided with the remainder rounded up. It fails exactly when
      the rounded quotient does not fit 63 bits. */
  method MultiplyDivideCeil(value: int, numerator: int, denominator: int) returns (r: Option<int>)
    requires value <= MAX_INT64 && 0 <= numerator < WORD && 0 <= denominator < WORD
    ensures value < 0 || denominator == 0 ==> r.None?
    ensures value >= 0 && denominator > 0 ==>
              r == if CeilDiv(value * numerator, denominator) <= MAX_INT64 then Some(CeilDiv(value * numerator, denominator)) else None
  {
    if value < 0 || denominator == 0 {
      return None;
    }
    var product := value * numerator;
    var hi, lo := product / WORD, product % WORD;
    if hi >= denominator {
      LargeQuotient(product, denominator);
      return None;
    }
    var quotient, remainder := (hi * WORD + lo) / denominator, (hi * WORD + lo) % denominator;
    CeilFromFloor(product, denominator);
    if remainder != 0 {
      if quotient == WORD - 1 {
        return None;
      }
      quotient := quotient + 1;
    }
    return if quotient > MAX_INT64 then None else Some(quotient);
  }

  lemma LargeQuotient(product: int, d: int)
    requires 0 < d && product / WORD >= d
    ensures CeilDiv(product, d) > MAX_INT64
  {
    var q := CeilDiv(product, d);
    assert product >= WORD * d;
    if q <= MAX_INT64 {
      ProductMonotone(q, WORD - 1, d);
    }
  }

  lemma CeilFromFloor(a: int, d: int)
    requires a >= 0 && d > 0
    ensures CeilDiv(a, d) == if a % d == 0 then a / d else a / d + 1
  {
    var q := a / d;
    CeilUnique(a, d, if a % d == 0 then q else q + 1);
  }

  lemma CeilUnique(a: int, d: int, r: int)
    requires d > 0 && (r - 1) * d < a <= r * d
    ensures CeilDiv(a, d) == r
  {
    var q := CeilDiv(a, d);
    if q < r { ProductMonotone(q, r - 1, d); }
    if r < q { ProductMonotone(r, q - 1, d); }
  }

  method CheckedAdd(a: int, b: int) returns (r: Option<int>)
    requires 0 <= a <= MAX_INT64 && b <= MAX_INT64
    ensures r == if b >= 0 && a + b <= MAX_INT64 then Some(a + b) else None
  {
    if b < 0 || a > MAX_INT64 - b {
      return None;
    }
    return Some(a + b);
  }

  /** The least multiple of the unit that is at least the value. */
  method RoundUp(value: int, unit: int) returns (r: Option<int>)
    requires value <= MAX_INT64 && unit <= MAX_INT64
    ensures value < 0 || unit <= 0 ==> r.None?
    ensures value >= 0 && unit > 0 ==>
              r == if CeilDiv(value, unit) * unit <= MAX_INT64 then Some(CeilDiv(value, unit) * unit) else None
  {
    if value < 0 || unit <= 0 {
      return None;
    }
    var remainder := value % unit;
    CeilFromFloor(value, unit);
    assert value == value / unit * unit + remainder;
    if remainder == 0 {
      return Some(value);
    }
    assert (value / unit + 1) * unit == value / unit * unit + unit;
    r := CheckedAdd(value, unit - remainder);
  }

  // ----- history of one scope -----

  const DAY: int := 24 * 3600 * 1_000_000_000

  datatype Event = Event(id: int, ts: int, day: int, cost: int)

  function SpendOn(events: seq<Event>, day: int): int {
    if events == [] then 0
    else SpendOn(events[..|events| - 1], day) + (if events[|events| - 1].day == day then events[|events| - 1].cost else 0)
  }

  function Spend(events: seq<Event>): int {
    if events == [] then 0 else Spend(events[..|events| - 1]) + events[|events| - 1].cost
  }

  ghost predicate Sound(events: seq<Event>, days: nat) {
    forall i :: 0 <= i < |events| ==> 0 <= events[i].day < days && events[i].cost >= 0
  }

  // ----- replaying a cap -----

  /** Whether call `i` would be refused: it does not fit in what its day has left. */
  function Refused(events: seq<Event>, cap: int, i: nat): bool
    requires i < |events|
  {
    events[i].cost > cap - UsedOn(events, cap, i, events[i].day)
  }

  /** What the first `n` calls use of one day under the cap. */
  function UsedOn(events: seq<Event>, cap: int, n: nat, day: int): int
    requires n <= |events|
  {
    if n == 0 then 0
    else UsedOn(events, cap, n - 1, day) + (if events[n - 1].day == day && !Refused(events, cap, n - 1) then events[n - 1].cost else 0)
  }

  function RefusedCalls(events: seq<Event>, cap: int, n: nat): int
    requires n <= |events|
  {
    if n == 0 then 0 else RefusedCalls(events, cap, n - 1) + (if Refused(events, cap, n - 1) then 1 else 0)
  }

  function RefusedSpend(events: seq<Event>, cap: int, n: nat): int
    requires n <= |events|
  {
    if n == 0 then 0 else RefusedSpend(events, cap, n - 1) + (if Refused(events, cap, n - 1) then events[n - 1].cost else 0)
  }

  function RefusedSpendOn(events: seq<Event>, cap: int, n: nat, day: int): int
    requires n <= |events|
  {
    if n == 0 then 0
    else RefusedSpendOn(events, cap, n - 1, day) + (if events[n - 1].day == day && Refused(events, cap, n - 1) then events[n - 1].cost else 0)
  }

  /** No day is ever used beyond the cap, and every call's cost is either used or refused. */
  lemma {:induction false} ReplayConserves(events: seq<Event>, cap: int, n: nat, day: int, days: nat)
    requires n <= |events| && cap >= 0 && Sound(events, days)
    ensures 0 <= UsedOn(events, cap, n, day) <= cap
    ensures RefusedSpendOn(events, cap, n, day) >= 0
    ensures UsedOn(events, cap, n, day) + RefusedSpendOn(events, cap, n, day) == SpendOn(events[..n], day)
  {
    if n > 0 {
      ReplayConserves(events, cap, n - 1, day, days);
      assert events[..n][..n - 1] == events[..n - 1];
    }
  }

  function UsedTotal(events: seq<Event>, cap: int, n: nat, days: nat): int
    requires n <= |events|
  {
    if days == 0 then 0 else UsedTotal(events, cap, n, days - 1) + UsedOn(events, cap, n, days - 1)
  }

  lemma {:induction false} UsedTotalStep(events: seq<Event>, cap: int, n: nat, days: nat)
    requires n < |events|
    ensures UsedTotal(events, cap, n + 1, days)
            == UsedTotal(events, cap, n, days)
               + (if 0 <= events[n].day < days && !Refused(events, cap, n) then events[n].cost else 0)
  {
    if days > 0 {
      UsedTotalStep(events, cap, n, days - 1);
    }
  }

  lemma {:induction false} NothingUsed(events: seq<Event>, cap: int, days: nat)
    ensures UsedTotal(events, cap, 0, days) == 0
  {
    if days > 0 {
      NothingUsed(events, cap, days - 1);
    }
  }

  /** Over all days, what was used and what was refused make up the whole spend. */
  lemma {:induction false} ReplayTotals(events: seq<Event>, cap: int, n: nat, days: nat)
    requires n <= |events| && Sound(events, days)
    ensures UsedTotal(events, cap, n, days) + RefusedSpend(events, cap, n) == Spend(events[..n])
  {
    if n > 0 {
      ReplayTotals(events, cap, n - 1, days);
      UsedTotalStep(events, cap, n - 1, days);
      assert events[..n][..n - 1] == events[..n - 1];
    } else {
      NothingUsed(events, cap, days);
    }
  }

  /** A day whose whole spend fits the cap has no refused call. */
  lemma NoneRefused(events: seq<Event>, cap: int, i: nat, days: nat)
    requires i < |events| && cap >= 0 && Sound(events, days) && SpendOn(events, events[i].day) <= cap
    ensures !Refused(events, cap, i)
  {
    var day := events[i].day;
    ReplayConserves(events, cap, i, day, days);
    SpendGrows(events, i + 1, day, days);
    assert events[..i + 1][..i] == events[..i];
  }

  lemma {:induction false} SpendGrows(events: seq<Event>, n: nat, day: int, days: nat)
    requires n <= |events| && Sound(events, days)
    ensures SpendOn(events[..n], day) <= SpendOn(events, day)
  {
    if n < |events| {
      SpendGrows(events[..|events| - 1], n, day, days);
      assert events[..|events| - 1][..n] == events[..n];
    } else {
      assert events[..n] == events;
    }
  }

  lemma {:induction false} RefusedWithinSpend(events: seq<Event>, cap: int, n: nat, days: nat)
    requires n <= |events| && Sound(events, days)
    ensures 0 <= RefusedSpend(events, cap, n) <= Spend(events[..n]) <= Spend(events)
  {
    if n > 0 {
      RefusedWithinSpend(events, cap, n - 1, days);
      assert events[..n][..n - 1] == events[..n - 1];
    }
    SpendRises(events, n, days);
  }

  lemma {:induction false} SpendRises(events: seq<Event>, n: nat, days: nat)
    requires n <= |events| && Sound(events, days)
    ensures 0 <= Spend(events[..n]) <= Spend(events)
    decreases |events|
  {
    if n < |events| {
      SpendRises(events[..|events| - 1], n, days);
      assert events[..|events| - 1][..n] == events[..n];
    } else {
      assert events[..n] == events;
      if n > 0 {
        SpendRises(events[..n - 1], n - 1, days);
      }
    }
  }

  /** The replay itself. Its one overflow check cannot fire when the scope's total fits. */
  method ReplayCap(events: seq<Event>, cap: int, days: nat) returns (calls: int, spend: Option<int>, used: array<int>)
    requires cap >= 0 && Sound(events, days) && Spend(events) <= MAX_INT64
    ensures fresh(used) && used.Length == days && forall d :: 0 <= d < days ==> used[d] == UsedOn(events, cap, |events|, d)
    ensures calls == RefusedCalls(events, cap, |events|)
    ensures spend == Some(RefusedSpend(events, cap, |events|))
  {
    used := new int[days](_ => 0);
    calls := 0;
    var blocked := 0;
    for i := 0 to |events|
      invariant forall d :: 0 <= d < days ==> used[d] == UsedOn(events, cap, i, d)
      invariant calls == RefusedCalls(events, cap, i) && blocked == RefusedSpend(events, cap, i)
      invariant 0 <= blocked <= MAX_INT64
    {
      var event := events[i];
      RefusedWithinSpend(events, cap, i, days);
      RefusedWithinSpend(events, cap, i + 1, days);
      SpendRises(events[..i + 1], i, days);
      if event.cost > cap - used[event.day] {
        calls := calls + 1;
        assert events[..i + 1][..i] == events[..i];
        assert event.cost <= Spend(events[..i + 1]);
        var sum := CheckedAdd(blocked, event.cost);
        if sum.None? {
          return calls, None, used;
        }
        blocked := sum.value;
      } else {
        used[event.day] := used[event.day] + event.cost;
      }
    }
    return calls, Some(blocked), used;
  }

  // ----- history gathered per scope -----

  datatype Attribution = Unattributed | Untrusted | Malformed | To(scope: string)

  datatype Call = Call(id: int, ts: int, attribution: Attribution, priced: bool, unsafe: bool, cost: real)

  datatype Aggregate = Aggregate(daily: seq<int>, total: int, excluded: int, unsafe: int, events: seq<Event>)

  const MICROS: int := 1_000_000

  /** Rounded to the nearest millionth, leaving a dollar of room below the 63-bit limit. */
  function DollarsToMicros(value: real): (r: Option<int>)
    ensures r.Some? ==> 0 <= r.value <= MAX_INT64
  {
    if value < 0.0 || value > ((MAX_INT64 - MICROS) as real) / (MICROS as real) then None
    else
      var scaled := value * (MICROS as real);
      assert scaled <= (MAX_INT64 - MICROS) as real;
      Some((scaled + 0.5).Floor)
  }

  function DayOf(call: Call, from: int): int { (call.ts - from) / DAY }

  function Added(call: Call, from: int): seq<Event> {
    var micros := DollarsToMicros(call.cost);
    if call.priced && micros.Some? then [Event(call.id, call.ts, DayOf(call, from), micros.value)] else []
  }

  /** A scope's priced calls, in the order they are listed. */
  function EventsOf(calls: seq<Call>, from: int, scope: string): seq<Event> {
    if calls == [] then []
    else
      var last := calls[|calls| - 1];
      EventsOf(calls[..|calls| - 1], from, scope) + (if last.attribution == To(scope) then Added(last, from) else [])
  }

  ghost predicate Sums(a: Aggregate, days: nat) {
    |a.daily| == days && Sound(a.events, days)
    && a.total == Spend(a.events) <= MAX_INT64
    && forall d :: 0 <= d < days ==> 0 <= a.daily[d] == SpendOn(a.events, d) <= MAX_INT64
  }

  /** A scope's calls that have no price, and its priced ones that were recorded unsafely. */
  function CountOf(calls: seq<Call>, scope: string, unpriced: bool): int {
    if calls == [] then 0
    else
      var last := calls[|calls| - 1];
      CountOf(calls[..|calls| - 1], scope, unpriced)
      + (if last.attribution == To(scope) && (if unpriced then !last.priced else last.priced && last.unsafe) then 1 else 0)
  }

  ghost predicate Stands(a: Aggregate, calls: seq<Call>, from: int, scope: string) {
    a.events == EventsOf(calls, from, scope) && a.excluded == CountOf(calls, scope, true) && a.unsafe == CountOf(calls, scope, false)
  }

  ghost predicate Gathered(aggregates: map<string, Aggregate>, calls: seq<Call>, from: int, days: nat) {
    (forall scope :: scope in aggregates <==> exists i :: 0 <= i < |calls| && calls[i].attribution == To(scope))
    && forall scope :: scope in aggregates ==> Sums(aggregates[scope], days) && Stands(aggregates[scope], calls, from, scope)
  }

  lemma EventsAppend(calls: seq<Call>, call: Call, from: int, scope: string)
    ensures EventsOf(calls + [call], from, scope)
            == EventsOf(calls, from, scope) + (if call.attribution == To(scope) then Added(call, from) else [])
  {
    assert (calls + [call])[..|calls|] == calls;
  }

  lemma StandsStep(a: Aggregate, calls: seq<Call>, call: Call, from: int, scope: string, b: Aggregate)
    requires Stands(a, calls, from, scope)
    requires if call.attribution == To(scope)
             then b.events == a.events + Added(call, from) && b.excluded == a.excluded + (if call.priced then 0 else 1)
                  && b.unsafe == a.unsafe + (if call.priced && call.unsafe then 1 else 0)
             else b == a
    ensures Stands(b, calls + [call], from, scope)
  {
    hide Added;
    assert (calls + [call])[..|calls|] == calls;
    assert a.events + [] == a.events;
  }

  lemma {:induction false} NoEvents(calls: seq<Call>, from: int, scope: string)
    requires forall i :: 0 <= i < |calls| ==> calls[i].attribution != To(scope)
    ensures EventsOf(calls, from, scope) == [] && CountOf(calls, scope, true) == 0 && CountOf(calls, scope, false) == 0
  {
    if calls != [] {
      NoEvents(calls[..|calls| - 1], from, scope);
    }
  }

  lemma EventSums(a: Aggregate, event: Event, days: nat)
    requires Sums(a, days) && 0 <= event.day < days && event.cost >= 0
    requires a.daily[event.day] + event.cost <= MAX_INT64 && a.total + event.cost <= MAX_INT64
    ensures Sums(a.(daily := a.daily[event.day := a.daily[event.day] + event.cost], total := a.total + event.cost, events := a.events + [event]), days)
  {
    assert (a.events + [event])[..|a.events|] == a.events;
  }

  /** Adds one priced call; None when a sum would overflow. */
  method Count(a: Aggregate, event: Event, unsafe: bool, days: nat) returns (r: Option<Aggregate>)
    requires Sums(a, days) && 0 <= event.day < days && 0 <= event.cost <= MAX_INT64
    ensures r.Some? ==> Sums(r.value, days) && r.value.events == a.events + [event]
                        && r.value.excluded == a.excluded && r.value.unsafe == a.unsafe + (if unsafe then 1 else 0)
    ensures r.None? <==> SpendOn(a.events, event.day) + event.cost > MAX_INT64 || Spend(a.events) + event.cost > MAX_INT64
  {
    SpendRises(a.events, |a.events|, days);
    var onDay := CheckedAdd(a.daily[event.day], event.cost);
    if onDay.None? {
      return None;
    }
    var total := CheckedAdd(a.total, event.cost);
    if total.None? {
      return None;
    }
    EventSums(a, event, days);
    return Some(Aggregate(a.daily[event.day := onDay.value], total.value, a.excluded,
                          a.unsafe + (if unsafe then 1 else 0), a.events + [event]));
  }

  lemma EmptySums(days: nat)
    ensures Sums(Aggregate(seq(days, _ => 0), 0, 0, 0, []), days)
  {
  }

  lemma ExcludedSums(a: Aggregate, days: nat)
    requires Sums(a, days)
    ensures Sums(a.(excluded := a.excluded + 1), days)
  {
  }

  lemma InWindow(call: Call, from: int, days: nat)
    requires !Outside(call, from, days)
    ensures 0 <= DayOf(call, from) < days
  {
    assert call.ts - from < days * DAY;
  }

  lemma GatheredStep(aggregates: map<string, Aggregate>, calls: seq<Call>, call: Call, a: Aggregate, from: int, days: nat)
    requires Gathered(aggregates, calls, from, days) && call.attribution.To?
    requires Sums(a, days) && Stands(a, calls + [call], from, call.attribution.scope)
    ensures Gathered(aggregates[call.attribution.scope := a], calls + [call], from, days)
  {
    hide Sums, Stands;
    forall scope | scope in aggregates && scope != call.attribution.scope ensures Stands(aggregates[scope], calls + [call], from, scope) {
      StandsStep(aggregates[scope], calls, call, from, scope, aggregates[scope]);
    }
    forall scope | exists i :: 0 <= i < |calls + [call]| && (calls + [call])[i].attribution == To(scope)
      ensures scope in aggregates[call.attribution.scope := a]
    {
      var i :| 0 <= i < |calls + [call]| && (calls + [call])[i].attribution == To(scope);
      assert i < |calls| ==> calls[i].attribution == To(scope);
    }
    assert (calls + [call])[|calls|].attribution == To(call.attribution.scope);
    forall i | 0 <= i < |calls| ensures (calls + [call])[i] == calls[i] {
    }
  }

  lemma GatheredElse(aggregates: map<string, Aggregate>, calls: seq<Call>, call: Call, from: int, days: nat)
    requires Gathered(aggregates, calls, from, days) && !call.attribution.To?
    ensures Gathered(aggregates, calls + [call], from, days)
  {
    hide Sums, Stands;
    forall scope | scope in aggregates ensures Stands(aggregates[scope], calls + [call], from, scope) {
      StandsStep(aggregates[scope], calls, call, from, scope, aggregates[scope]);
    }
    forall scope ensures (exists i :: 0 <= i < |calls + [call]| && (calls + [call])[i].attribution == To(scope))
                         <==> (exists i :: 0 <= i < |calls| && calls[i].attribution == To(scope))
    {
      forall i | 0 <= i < |calls| ensures (calls + [call])[i] == calls[i] {
      }
    }
  }

  /** One day's spend is part of the whole. */
  lemma {:induction false} DayWithinSpend(events: seq<Event>, day: int, days: nat)
    requires Sound(events, days)
    ensures SpendOn(events, day) <= Spend(events)
  {
    if events != [] {
      DayWithinSpend(events[..|events| - 1], day, days);
    }
  }

  lemma AddedSpend(events: seq<Event>, event: Event)
    ensures Spend(events + [event]) == Spend(events) + event.cost
  {
    assert (events + [event])[..|events|] == events;
  }

  /** One more call of a scope; None exactly when its cost or the scope's sum does not fit. */
  method Tally(a: Aggregate, call: Call, from: int, days: nat) returns (r: Option<Aggregate>)
    requires Sums(a, days) && 0 <= DayOf(call, from) < days && call.attribution.To?
    ensures r.Some? ==> Sums(r.value, days) && r.value.events == a.events + Added(call, from)
    ensures r.Some? ==> r.value.excluded == a.excluded + (if call.priced then 0 else 1)
    ensures r.Some? ==> r.value.unsafe == a.unsafe + (if call.priced && call.unsafe then 1 else 0)
    ensures r.None? <==> Unrepresentable(call) || Spend(a.events + Added(call, from)) > MAX_INT64
  {
    hide DollarsToMicros, SpendOn, Spend;
    assert a.events + [] == a.events;
    if !call.priced {
      ExcludedSums(a, days);
      return Some(a.(excluded := a.excluded + 1));
    }
    var micros := DollarsToMicros(call.cost);
    if micros.None? {
      return None;
    }
    var event := Event(call.id, call.ts, DayOf(call, from), micros.value);
    DayWithinSpend(a.events, event.day, days);
    AddedSpend(a.events, event);
    r := Count(a, event, call.unsafe, days);
  }

  /** A priced call of some scope whose cost has no integer form. */
  predicate Unrepresentable(call: Call) { call.attribution.To? && call.priced && DollarsToMicros(call.cost).None? }

  predicate Outside(call: Call, from: int, days: nat) { call.ts < from || call.ts >= from + days * DAY }

  /** Nothing the history could stumble over: every call inside it, every cost representable, and no
      scope's spend past the top of int64. */
  ghost predicate Countable(calls: seq<Call>, from: int, days: nat) {
    (forall i :: 0 <= i < |calls| ==> !Outside(calls[i], from, days) && !Unrepresentable(calls[i]))
    && forall scope :: Spend(EventsOf(calls, from, scope)) <= MAX_INT64
  }

  lemma {:induction false} SpendGrowsWithCalls(calls: seq<Call>, n: nat, from: int, scope: string)
    requires n <= |calls|
    ensures 0 <= Spend(EventsOf(calls[..n], from, scope)) <= Spend(EventsOf(calls, from, scope))
    decreases |calls|
  {
    hide DollarsToMicros;
    if n < |calls| {
      SpendGrowsWithCalls(calls[..|calls| - 1], n, from, scope);
      assert calls[..|calls| - 1][..n] == calls[..n];
      SpendAfterCall(calls[..|calls| - 1], calls[|calls| - 1], from, scope);
      assert calls == calls[..|calls| - 1] + [calls[|calls| - 1]];
    } else {
      assert calls[..n] == calls;
      if n > 0 {
        SpendGrowsWithCalls(calls[..n - 1], n - 1, from, scope);
        assert calls[..n - 1][..n - 1] == calls[..n - 1];
        SpendAfterCall(calls[..n - 1], calls[n - 1], from, scope);
        assert calls == calls[..n - 1] + [calls[n - 1]];
      }
    }
  }

  lemma SpendAfterCall(calls: seq<Call>, call: Call, from: int, scope: string)
    ensures Spend(EventsOf(calls + [call], from, scope)) >= Spend(EventsOf(calls, from, scope))
  {
    hide DollarsToMicros, Spend, EventsOf;
    EventsAppend(calls, call, from, scope);
    var front := EventsOf(calls, from, scope);
    assert front + [] == front;
    if call.attribution == To(scope) && Added(call, from) != [] {
      AddedSpend(front, Added(call, from)[0]);
    }
  }

  /** A history that fails at one call is not countable as a whole. */
  lemma FailsAt(calls: seq<Call>, i: nat, from: int, days: nat)
    requires i < |calls|
    requires Outside(calls[i], from, days) || Unrepresentable(calls[i])
             || (calls[i].attribution.To?
                 && Spend(EventsOf(calls[..i], from, calls[i].attribution.scope) + Added(calls[i], from)) > MAX_INT64)
    ensures !Countable(calls, from, days)
  {
    hide Spend, EventsOf, DollarsToMicros;
    if !Outside(calls[i], from, days) && !Unrepresentable(calls[i]) {
      var scope := calls[i].attribution.scope;
      assert calls[..i + 1] == calls[..i] + [calls[i]];
      EventsAppend(calls[..i], calls[i], from, scope);
      SpendGrowsWithCalls(calls, i + 1, from, scope);
    }
  }

  lemma AllCounted(aggregates: map<string, Aggregate>, calls: seq<Call>, from: int, days: nat)
    requires Gathered(aggregates, calls, from, days)
    requires forall i :: 0 <= i < |calls| ==> !Outside(calls[i], from, days) && !Unrepresentable(calls[i])
    ensures Countable(calls, from, days)
  {
    hide EventsOf, Outside, Unrepresentable;
    forall scope ensures Spend(EventsOf(calls, from, scope)) <= MAX_INT64 {
      if scope !in aggregates {
        NoEvents(calls, from, scope);
      }
    }
  }

  /** Daily and total spend of every scope that appears, refusing calls outside the history and
      sums that overflow. */
  method Gather(calls: seq<Call>, from: int, days: nat) returns (r: Option<map<string, Aggregate>>)
    ensures r.Some? ==> Gathered(r.value, calls, from, days)
    ensures r.Some? <==> Countable(calls, from, days)
  {
    hide Sums, EventsOf, Added, Gathered, DayOf, Outside, Unrepresentable, Countable, Spend;
    var aggregates: map<string, Aggregate> := map[];
    NothingGathered(from, days);
    for i := 0 to |calls|
      invariant Gathered(aggregates, calls[..i], from, days)
      invariant forall k :: 0 <= k < i ==> !Outside(calls[k], from, days) && !Unrepresentable(calls[k])
    {
      var call := calls[i];
      assert calls[..i + 1] == calls[..i] + [call];
      if Outside(call, from, days) {
        FailsAt(calls, i, from, days);
        return None;
      }
      if call.attribution.To? {
        var scope := call.attribution.scope;
        StartingPoint(aggregates, calls[..i], scope, from, days);
        InWindow(call, from, days);
        var a := if scope in aggregates then aggregates[scope] else Aggregate(seq(days, _ => 0), 0, 0, 0, []);
        var counted := Tally(a, call, from, days);
        if counted.None? {
          FailsAt(calls, i, from, days);
          return None;
        }
        StandsStep(a, calls[..i], call, from, scope, counted.value);
        GatheredStep(aggregates, calls[..i], call, counted.value, from, days);
        aggregates := aggregates[scope := counted.value];
      } else {
        UnscopedIsFine(call);
        GatheredElse(aggregates, calls[..i], call, from, days);
      }
    }
    assert calls[..|calls|] == calls;
    AllCounted(aggregates, calls, from, days);
    return Some(aggregates);
  }

  lemma UnscopedIsFine(call: Call)
    requires !call.attribution.To?
    ensures !Unrepresentable(call)
  {
  }

  lemma NothingGathered(from: int, days: nat)
    ensures Gathered(map[], [], from, days)
  {
  }

  lemma StartingPoint(aggregates: map<string, Aggregate>, calls: seq<Call>, scope: string, from: int, days: nat)
    requires Gathered(aggregates, calls, from, days)
    ensures scope in aggregates ==> Sums(aggregates[scope], days) && Stands(aggregates[scope], calls, from, scope)
    ensures scope !in aggregates ==>
              Sums(Aggregate(seq(days, _ => 0), 0, 0, 0, []), days) && Stands(Aggregate(seq(days, _ => 0), 0, 0, 0, []), calls, from, scope)
  {
    hide Sums, EventsOf, CountOf;
    if scope !in aggregates {
      NoEvents(calls, from, scope);
      EmptySums(days);
    }
  }

  // ----- percentiles -----

  predicate Less(a: int, b: int) { a < b }

  function AtMost(s: seq<int>, x: int): nat {
    if s == [] then 0 else AtMost(s[..|s| - 1], x) + (if s[|s| - 1] <= x then 1 else 0)
  }

  lemma {:induction false} AtMostInsert(s: seq<int>, y: int, x: int)
    ensures AtMost(Sorting.Insert(s, y, Less), x) == AtMost(s, x) + (if y <= x then 1 else 0)
  {
    if s != [] && Less(y, s[|s| - 1]) {
      AtMostInsert(s[..|s| - 1], y, x);
      var front := Sorting.Insert(s[..|s| - 1], y, Less);
      assert (front + [s[|s| - 1]])[..|front|] == front;
    } else {
      assert (s + [y])[..|s|] == s;
    }
  }

  lemma {:induction false} AtMostSorted(s: seq<int>, x: int)
    ensures AtMost(Sorting.StableSort(s, Less), x) == AtMost(s, x)
  {
    if s != [] {
      AtMostSorted(s[..|s| - 1], x);
      AtMostInsert(Sorting.StableSort(s[..|s| - 1], Less), s[|s| - 1], x);
    }
  }

  lemma {:induction false} AtMostFirst(s: seq<int>, k: nat, x: int)
    requires k <= |s| && forall i :: 0 <= i < k ==> s[i] <= x
    ensures AtMost(s, x) >= k
  {
    if s != [] {
      AtMostFirst(s[..|s| - 1], if k < |s| then k else k - 1, x);
    }
  }

  /** Position of the percentile among `n` sorted days. `raised` is a product that rounding pushed
      just past a whole number before it was rounded up. */
  function PercentileIndex(percent: int, n: nat, raised: bool): (r: int)
    requires 0 < percent < 100 && n > 0
    ensures 0 <= r < n && r + 1 >= CeilDiv(percent * n, 100)
  {
    var exact := CeilDiv(percent * n, 100);
    PercentileBounds(percent, n);
    Max(0, Min((if raised && percent * n % 100 == 0 then exact + 1 else exact) - 1, n - 1))
  }

  lemma PercentileBounds(percent: int, n: nat)
    requires 0 < percent < 100 && n > 0
    ensures 1 <= CeilDiv(percent * n, 100) <= n
  {
    assert percent * n <= 99 * n;
  }

  lemma InOrder(s: seq<int>, i: nat, j: nat)
    requires i < j < |s|
    ensures Sorting.StableSort(s, Less)[i] <= Sorting.StableSort(s, Less)[j]
  {
    Sorting.StableSortSorted(s, Less);
    assert !Less(Sorting.StableSort(s, Less)[j], Sorting.StableSort(s, Less)[i]);
  }

  /** At least `percent` of the days spent no more than the percentile day. */
  lemma PercentileCovers(daily: seq<int>, percent: int, raised: bool)
    requires 0 < percent < 100 && daily != []
    ensures AtMost(daily, Sorting.StableSort(daily, Less)[PercentileIndex(percent, |daily|, raised)]) >= CeilDiv(percent * |daily|, 100)
  {
    hide CeilDiv, PercentileIndex, AtMost, Sorting.StableSort;
    var sorted := Sorting.StableSort(daily, Less);
    var index := PercentileIndex(percent, |daily|, raised);
    forall i | 0 <= i < index + 1 ensures sorted[i] <= sorted[index] {
      if i < index {
        InOrder(daily, i, index);
      }
    }
    AtMostFirst(sorted, index + 1, sorted[index]);
    AtMostSorted(daily, sorted[index]);
  }

  // ----- proposals -----

  predicate EventBefore(a: Event, b: Event) { a.ts < b.ts || (a.ts == b.ts && a.id < b.id) }

  lemma {:induction false} InsertKeepsSpend(events: seq<Event>, e: Event, day: int)
    ensures SpendOn(Sorting.Insert(events, e, EventBefore), day) == SpendOn(events, day) + (if e.day == day then e.cost else 0)
    ensures Spend(Sorting.Insert(events, e, EventBefore)) == Spend(events) + e.cost
  {
    if events != [] && EventBefore(e, events[|events| - 1]) {
      InsertKeepsSpend(events[..|events| - 1], e, day);
      var front := Sorting.Insert(events[..|events| - 1], e, EventBefore);
      assert (front + [events[|events| - 1]])[..|front|] == front;
    } else {
      assert (events + [e])[..|events|] == events;
    }
  }

  lemma {:induction false} SortKeepsSpend(events: seq<Event>, day: int)
    ensures SpendOn(Sorting.StableSort(events, EventBefore), day) == SpendOn(events, day)
    ensures Spend(Sorting.StableSort(events, EventBefore)) == Spend(events)
  {
    if events != [] {
      SortKeepsSpend(events[..|events| - 1], day);
      InsertKeepsSpend(Sorting.StableSort(events[..|events| - 1], EventBefore), events[|events| - 1], day);
    }
  }

  lemma SortKeepsSound(events: seq<Event>, days: nat)
    requires Sound(events, days)
    ensures Sound(Sorting.StableSort(events, EventBefore), days)
  {
    var sorted := Sorting.StableSort(events, EventBefore);
    forall i | 0 <= i < |sorted| ensures 0 <= sorted[i].day < days && sorted[i].cost >= 0 {
      Sorting.SameMembers(events, EventBefore, sorted[i]);
    }
  }

  /** A day on which the replay refuses nothing. */
  ghost predicate Quiet(events: seq<Event>, cap: int, day: int) {
    forall i :: 0 <= i < |events| && events[i].day == day ==> !Refused(events, cap, i)
  }

  ghost function QuietDays(events: seq<Event>, cap: int, days: nat): nat {
    if days == 0 then 0 else QuietDays(events, cap, days - 1) + (if Quiet(events, cap, days - 1) then 1 else 0)
  }

  /** Every day within the cap is a quiet one. */
  lemma {:induction false} CoveredDaysAreQuiet(events: seq<Event>, cap: int, daily: seq<int>, percentile: int, n: nat, days: nat)
    requires n <= |daily| == days && Sound(events, days) && 0 <= cap && percentile <= cap
    requires forall d :: 0 <= d < days ==> daily[d] == SpendOn(events, d)
    ensures QuietDays(events, cap, n) >= AtMost(daily[..n], percentile)
  {
    hide Refused;
    if n > 0 {
      CoveredDaysAreQuiet(events, cap, daily, percentile, n - 1, days);
      assert daily[..n][..n - 1] == daily[..n - 1];
      if daily[n - 1] <= percentile {
        forall i | 0 <= i < |events| && events[i].day == n - 1 ensures !Refused(events, cap, i) {
          NoneRefused(events, cap, i, days);
        }
      }
    }
  }

  const CENT: int := 10_000

  datatype Recommendation = Recommendation(cap: int, percentile: int, recent: int, blockedCalls: int, blockedSpend: int)

  /** Mean of the last week's days, rounded down. */
  function Recent(daily: seq<int>): int
    requires |daily| >= 7
  {
    SumOf(daily[|daily| - 7..]) / 7
  }

  function SumOf(s: seq<int>): int {
    if s == [] then 0 else SumOf(s[..|s| - 1]) + s[|s| - 1]
  }

  method RecentVelocity(a: Aggregate, days: nat) returns (r: Option<int>)
    requires Sums(a, days) && days >= 7
    ensures r == if SumOf(a.daily[days - 7..]) <= MAX_INT64 then Some(Recent(a.daily)) else None
    ensures r.Some? ==> 0 <= r.value <= MAX_INT64
  {
    hide Sound, SpendOn, Spend;
    var last := a.daily[days - 7..];
    var sum := 0;
    for i := 0 to |last|
      invariant sum == SumOf(last[..i]) && 0 <= sum <= MAX_INT64
    {
      assert last[..i + 1][..i] == last[..i];
      SumRises(last, i + 1);
      var next := CheckedAdd(sum, last[i]);
      if next.None? {
        return None;
      }
      sum := next.value;
    }
    assert last[..|last|] == last;
    return Some(sum / 7);
  }

  lemma {:induction false} SumRises(s: seq<int>, n: nat)
    requires n <= |s| && forall i :: 0 <= i < |s| ==> s[i] >= 0
    ensures SumOf(s[..n]) <= SumOf(s)
  {
    if n < |s| {
      SumRises(s[..|s| - 1], n);
      assert s[..|s| - 1][..n] == s[..n];
    } else {
      assert s[..n] == s;
    }
  }

  /** Whole cents, no less than the base with its headroom, and no more cents than that takes. */
  ghost predicate CapFor(cap: int, base: int, headroom: int) {
    cap % CENT == 0 && cap >= CENT && cap >= base && cap * 100 >= base * (100 + headroom)
    && (cap > CENT ==> (cap - CENT) * 100 < base * (100 + headroom))
  }

  method ProposedCap(base: int, headroom: int) returns (cap: Option<int>)
    requires 0 <= base <= MAX_INT64 && 0 <= headroom <= 200
    ensures cap.Some? ==> CapFor(cap.value, base, headroom) && cap.value <= MAX_INT64
    ensures cap.None? <==> CeilDiv(CeilDiv(base * (100 + headroom), 100), CENT) * CENT > MAX_INT64
  {
    var scaled := MultiplyDivideCeil(base, 100 + headroom, 100);
    var exact := CeilDiv(base * (100 + headroom), 100);
    CapArithmetic(base, headroom);
    if scaled.None? {
      return None;
    }
    var rounded := RoundUp(scaled.value, CENT);
    if rounded.None? {
      return None;
    }
    return Some(Max(rounded.value, CENT));
  }

  lemma CapArithmetic(base: int, headroom: int)
    requires 0 <= base && 0 <= headroom
    ensures var exact := CeilDiv(base * (100 + headroom), 100);
            exact >= 0 && CeilDiv(exact, CENT) * CENT >= exact && CapFor(Max(CeilDiv(exact, CENT) * CENT, CENT), base, headroom)
  {
    hide CeilDiv;
    var product := base * (100 + headroom);
    assert product >= base * 100 by { assert product == base * 100 + base * headroom && base * headroom >= 0; }
    WholeCents(product, base);
  }

  lemma WholeCents(product: int, base: int)
    requires product >= base * 100 && base >= 0
    ensures var exact := CeilDiv(product, 100);
            var cap := Max(CeilDiv(exact, CENT) * CENT, CENT);
            exact >= 0 && CeilDiv(exact, CENT) * CENT >= exact && cap % CENT == 0 && cap >= CENT && cap >= base && cap * 100 >= product
            && (cap > CENT ==> (cap - CENT) * 100 < product)
  {
    hide CeilDiv;
    var exact := CeilDiv(product, 100);
    var cents := CeilDiv(exact, CENT);
    assert (exact - 1) * 100 < product <= exact * 100;
    assert (cents - 1) * CENT < exact <= cents * CENT;
  }

  /** The base with its headroom, in whole cents, does not fit. */
  ghost predicate CapTooLarge(a: Aggregate, days: nat, percent: int, headroom: int, raised: bool)
    requires Sums(a, days) && 7 <= days && 0 < percent < 100
  {
    var base := Max(Sorting.StableSort(a.daily, Less)[PercentileIndex(percent, days, raised)], Recent(a.daily));
    CeilDiv(CeilDiv(base * (100 + headroom), 100), CENT) * CENT > MAX_INT64
  }

  /** One scope's proposal. It keeps within the cap on at least the chosen share of days, and every
      millionth of the scope's spend is either used under the cap or counted as blocked. */
  method Propose(a: Aggregate, days: nat, percent: int, headroom: int, raised: bool) returns (r: Option<Recommendation>)
    requires Sums(a, days) && 7 <= days <= 90 && 50 <= percent <= 99 && 0 <= headroom <= 200
    ensures r.Some? ==>
              var rec, sorted := r.value, Sorting.StableSort(a.events, EventBefore);
              rec.percentile == Sorting.StableSort(a.daily, Less)[PercentileIndex(percent, days, raised)]
              && rec.recent == Recent(a.daily)
              && CapFor(rec.cap, Max(rec.percentile, rec.recent), headroom)
              && AtMost(a.daily, rec.percentile) >= CeilDiv(percent * days, 100)
              && QuietDays(sorted, rec.cap, days) >= CeilDiv(percent * days, 100)
              && rec.blockedCalls == RefusedCalls(sorted, rec.cap, |sorted|)
              && rec.blockedSpend == RefusedSpend(sorted, rec.cap, |sorted|)
    ensures r.None? <==> (SumOf(a.daily[days - 7..]) > MAX_INT64 || CapTooLarge(a, days, percent, headroom, raised))
  {
    hide CeilDiv, CapFor, QuietDays, AtMost, PercentileIndex, Sorting.StableSort, RefusedCalls, RefusedSpend, SpendOn, Spend, Sound, Recent, SumOf;
    var daily := Sorting.StableSort(a.daily, Less);
    var percentile := daily[PercentileIndex(percent, days, raised)];
    Sorting.SameMembers(a.daily, Less, percentile);
    var recent := RecentVelocity(a, days);
    if recent.None? {
      return None;
    }
    var cap := ProposedCap(Max(percentile, recent.value), headroom);
    if cap.None? {
      return None;
    }
    var sorted := Sorting.StableSort(a.events, EventBefore);
    SortKeepsSound(a.events, days);
    forall d ensures SpendOn(sorted, d) == SpendOn(a.events, d) && Spend(sorted) == Spend(a.events) {
      SortKeepsSpend(a.events, d);
    }
    assert Spend(sorted) == Spend(a.events) by { SortKeepsSpend(a.events, 0); }
    CapBounds(cap.value, Max(percentile, recent.value), headroom);
    var calls, spend, used := ReplayCap(sorted, cap.value, days);
    PercentileCovers(a.daily, percent, raised);
    CoveredDaysAreQuiet(sorted, cap.value, a.daily, percentile, days, days);
    assert a.daily[..days] == a.daily;
    return Some(Recommendation(cap.value, percentile, recent.value, calls, spend.value));
  }

  lemma CapBounds(cap: int, base: int, headroom: int)
    requires CapFor(cap, base, headroom)
    ensures cap >= base && cap >= CENT
  {
  }
}
