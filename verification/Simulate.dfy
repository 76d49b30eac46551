/** The offline simulator: one pass over the samples with per-rule event lists, monotone cursors
    and 128-bit prefix sums, computing exactly what module Replay says. */
module Simulate {
  import opened Common
  import opened PolicyTypes
  import opened Admission
  import opened Sorting
  import opened Uint128
  import opened Replay
  import opened PolicyEngine

  /** One counted request; each field is the running total of its rule up to and including it. */
  datatype Event = Event(ts: int, input: U128, output: U128, total: U128, cost: U128)

  function Prefix(e: Event, counter: Counter): U128 {
    match counter
    case Input => e.input
    case Output => e.output
    case Cost => e.cost
    case _ => e.total
  }

  predicate SoundEvent(e: Event) {
    Uint128.Valid(e.input) && Uint128.Valid(e.output) && Uint128.Valid(e.total) && Uint128.Valid(e.cost)
  }

  // ----- a rule's events as points in time -----

  datatype Point = Point(ts: int, usage: Usage)

  /** What one rule has counted, oldest first, forgetting reservation status. */
  ghost function Points(h: History, key: Key): seq<Point> {
    if h == [] then []
    else
      var last := h[|h| - 1];
      Points(h[..|h| - 1], key) + (if key in last.counterKeys then [Point(last.ts, last.usage)] else [])
  }

  ghost function Sum(points: seq<Point>, counter: Counter): int {
    if points == [] then 0
    else Sum(points[..|points| - 1], counter) + Amount(points[|points| - 1].usage, counter)
  }

  ghost predicate Ordered(points: seq<Point>, now: int) {
    (forall i, j :: 0 <= i < j < |points| ==> points[i].ts <= points[j].ts)
    && forall i :: 0 <= i < |points| ==> points[i].ts <= now
  }

  /** Amounts a machine integer can hold, so no 128-bit total can fill up. */
  ghost predicate Small(points: seq<Point>) {
    forall i, c: Counter :: 0 <= i < |points| ==> 0 <= Amount(points[i].usage, c) <= MAX_INT64
  }

  lemma {:induction false} SumBounds(points: seq<Point>, counter: Counter)
    requires Small(points)
    ensures 0 <= Sum(points, counter) <= |points| * MAX_INT64
  {
    if points != [] {
      SumBounds(points[..|points| - 1], counter);
      assert 0 <= Amount(points[|points| - 1].usage, counter) <= MAX_INT64;
    }
  }

  lemma {:induction false} SumSplits(points: seq<Point>, n: nat, counter: Counter)
    requires n <= |points|
    ensures Sum(points, counter) == Sum(points[..n], counter) + Sum(points[n..], counter)
  {
    if n == |points| {
      assert points[..n] == points && points[n..] == [];
    } else {
      var front := points[..|points| - 1];
      SumSplits(front, n, counter);
      assert front[..n] == points[..n];
      assert points[n..][..|points| - n - 1] == front[n..];
    }
  }

  /** Usage since a cutoff is the sum of the points not before it. */
  ghost function SumSince(points: seq<Point>, cutoff: int, counter: Counter): int {
    if points == [] then 0
    else
      var last := points[|points| - 1];
      SumSince(points[..|points| - 1], cutoff, counter) + (if cutoff <= last.ts then Amount(last.usage, counter) else 0)
  }

  lemma {:induction false} UsageIsSumSince(h: History, key: Key, cutoff: int, counter: Counter)
    requires forall i :: 0 <= i < |h| ==> h[i].status in LIVE
    ensures UsageIn(h, Span(key, cutoff, None), LIVE, counter) == SumSince(Points(h, key), cutoff, counter)
  {
    if h != [] {
      var n := |h| - 1;
      UsageIsSumSince(h[..n], key, cutoff, counter);
      var front := Points(h[..n], key);
      var p := Point(h[n].ts, h[n].usage);
      assert (front + [p])[..|front|] == front && front + [] == front;
    }
  }

  lemma {:induction false} SumSinceBoundary(points: seq<Point>, cutoff: int, n: nat, counter: Counter)
    requires n <= |points|
    requires forall i :: 0 <= i < n ==> points[i].ts < cutoff
    requires forall i :: n <= i < |points| ==> cutoff <= points[i].ts
    ensures SumSince(points, cutoff, counter) == Sum(points[n..], counter)
  {
    if points != [] {
      var front := points[..|points| - 1];
      if n < |points| {
        SumSinceBoundary(front, cutoff, n, counter);
        assert points[n..][..|points| - n - 1] == front[n..];
      } else {
        SumSinceBoundary(front, cutoff, n - 1, counter);
        assert front[n - 1..] == [] && points[n..] == [];
      }
    }
  }

  lemma {:induction false} RequestsAreCount(points: seq<Point>)
    requires forall i :: 0 <= i < |points| ==> points[i].usage.requests == 1
    ensures Sum(points, Requests) == |points|
  {
    if points != [] {
      RequestsAreCount(points[..|points| - 1]);
    }
  }

  // ----- event lists hold prefix sums -----

  ghost predicate Tally(events: seq<Event>, points: seq<Point>) {
    |events| == |points|
    && forall j :: 0 <= j < |events| ==> TallyAt(events, points, j)
  }

  ghost predicate TallyAt(events: seq<Event>, points: seq<Point>, j: nat)
    requires j < |events| == |points|
  {
    SoundEvent(events[j]) && events[j].ts == points[j].ts
    && forall c: Counter :: c != Requests ==> Value(Prefix(events[j], c)) == Sum(points[..j + 1], c)
  }

  function NextEvent(events: seq<Event>, ts: int, usage: Usage): Event
    requires forall j :: 0 <= j < |events| ==> SoundEvent(events[j])
    requires usage.input <= MAX_INT64 && usage.output <= MAX_INT64 && usage.total <= MAX_INT64 && usage.cost <= MAX_INT64
  {
    assert events != [] ==> SoundEvent(events[|events| - 1]);
    var base := if events == [] then Event(ts, ZERO, ZERO, ZERO, ZERO) else events[|events| - 1];
    Event(ts, AddInt64(base.input, usage.input), AddInt64(base.output, usage.output),
          AddInt64(base.total, usage.total), AddInt64(base.cost, usage.cost))
  }

  lemma TallyAppend(events: seq<Event>, points: seq<Point>, ts: int, usage: Usage)
    requires Tally(events, points) && Small(points + [Point(ts, usage)]) && |points| < MAX_INT64
    ensures forall j :: 0 <= j < |events| ==> SoundEvent(events[j])
    ensures usage.input <= MAX_INT64 && usage.output <= MAX_INT64 && usage.total <= MAX_INT64 && usage.cost <= MAX_INT64
    ensures Tally(events + [NextEvent(events, ts, usage)], points + [Point(ts, usage)])
  {
    var p := Point(ts, usage);
    var all := points + [p];
    assert all[|points|] == p && forall c: Counter :: Amount(all[|points|].usage, c) <= MAX_INT64;
    assert Amount(usage, Input) == usage.input && Amount(usage, Output) == usage.output
           && Amount(usage, Total) == usage.total && Amount(usage, Cost) == usage.cost;
    forall j | 0 <= j < |events| ensures SoundEvent(events[j]) {
      assert TallyAt(events, points, j);
    }
    var next := events + [NextEvent(events, ts, usage)];
    forall j | 0 <= j < |next| ensures TallyAt(next, all, j) {
      if j < |points| {
        assert TallyAt(events, points, j);
        assert all[..j + 1] == points[..j + 1];
      } else {
        NewTotals(events, points, ts, usage);
        assert all[..j + 1] == all;
      }
    }
  }

  function LastOrNone(events: seq<Event>, ts: int): Event {
    if events == [] then Event(ts, ZERO, ZERO, ZERO, ZERO) else events[|events| - 1]
  }

  lemma TotalsSoFar(events: seq<Event>, points: seq<Point>, ts: int, c: Counter)
    requires Tally(events, points) && c != Requests
    ensures Value(Prefix(LastOrNone(events, ts), c)) == Sum(points, c)
  {
    if events != [] {
      assert TallyAt(events, points, |events| - 1);
      assert points[..|points|] == points;
    }
  }

  lemma FewerSmall(points: seq<Point>, p: Point)
    requires Small(points + [p])
    ensures Small(points) && forall c: Counter :: 0 <= Amount(p.usage, c) <= MAX_INT64
  {
    forall i, c: Counter | 0 <= i < |points| ensures 0 <= Amount(points[i].usage, c) <= MAX_INT64 {
      assert points[i] == (points + [p])[i];
    }
    forall c: Counter ensures 0 <= Amount(p.usage, c) <= MAX_INT64 {
      assert (points + [p])[|points|] == p;
    }
  }

  lemma NewTotals(events: seq<Event>, points: seq<Point>, ts: int, usage: Usage)
    requires Tally(events, points) && Small(points + [Point(ts, usage)]) && |points| < MAX_INT64
    requires forall j :: 0 <= j < |events| ==> SoundEvent(events[j])
    requires usage.input <= MAX_INT64 && usage.output <= MAX_INT64 && usage.total <= MAX_INT64 && usage.cost <= MAX_INT64
    ensures forall c: Counter :: c != Requests ==>
              Value(Prefix(NextEvent(events, ts, usage), c)) == Sum(points + [Point(ts, usage)], c)
    ensures SoundEvent(NextEvent(events, ts, usage))
  {
    hide Sum, Value, Small, Tally;
    var p := Point(ts, usage);
    FewerSmall(points, p);
    var base := LastOrNone(events, ts);
    forall c: Counter | c != Requests
      ensures Value(Prefix(NextEvent(events, ts, usage), c)) == Sum(points + [p], c)
    {
      TotalsSoFar(events, points, ts, c);
      RoomForOne(points, p, c);
      assert Prefix(NextEvent(events, ts, usage), c) == AddInt64(Prefix(base, c), Amount(usage, c));
    }
  }

  lemma RoomForOne(points: seq<Point>, p: Point, c: Counter)
    requires Small(points) && Small(points + [p]) && |points| < MAX_INT64
    ensures Sum(points, c) + Amount(p.usage, c) == Sum(points + [p], c) < WORD * WORD
  {
    hide Amount, Small;
    assert (points + [p])[..|points|] == points;
    SumBounds(points + [p], c);
    Headroom(|points| + 1);
  }

  lemma Headroom(n: nat)
    requires n <= MAX_INT64
    ensures n * MAX_INT64 < WORD * WORD
  {
    assert n * MAX_INT64 <= MAX_INT64 * MAX_INT64;
  }

  /** The difference of two prefixes is the window's exact sum: no wrap, no negative result. */
  method WindowPrefix(events: seq<Event>, first: nat, counter: Counter, ghost points: seq<Point>) returns (current: U128)
    requires Tally(events, points) && Small(points) && first <= |events| && counter != Requests && |points| <= MAX_INT64
    ensures Uint128.Valid(current) && Value(current) == Sum(points[first..], counter)
  {
    if events == [] || first >= |events| {
      assert points[first..] == [];
      return ZERO;
    }
    assert TallyAt(events, points, |events| - 1) && points[..|points|] == points;
    current := Prefix(events[|events| - 1], counter);
    SumSplits(points, first, counter);
    SumTailNonNegative(points, first, counter);
    if first > 0 {
      assert TallyAt(events, points, first - 1);
      current := Sub(current, Prefix(events[first - 1], counter));
    } else {
      assert points[first..] == points;
    }
  }

  lemma SumTailNonNegative(points: seq<Point>, first: nat, counter: Counter)
    requires Small(points) && first <= |points|
    ensures Sum(points[first..], counter) >= 0
  {
    assert Small(points[first..]) by {
      forall i, c: Counter | 0 <= i < |points[first..]| ensures 0 <= Amount(points[first..][i].usage, c) <= MAX_INT64 {
        assert points[first..][i] == points[first + i];
      }
    }
    SumBounds(points[first..], counter);
  }

  // ----- cursors -----

  function EventsOf(history: map<Key, seq<Event>>, key: Key): seq<Event> {
    if key in history then history[key] else []
  }

  function CursorOf(cursors: map<WindowKey, nat>, key: WindowKey): nat {
    if key in cursors then cursors[key] else 0
  }

  /** A cursor has passed only events its window no longer covers. */
  ghost predicate CursorOk(points: seq<Point>, first: nat, cutoff: int) {
    first <= |points| && forall j :: 0 <= j < first ==> points[j].ts < cutoff
  }

  method AdvanceCursor(events: seq<Event>, start: nat, cutoff: int) returns (first: nat)
    requires start <= |events|
    ensures start <= first <= |events|
    ensures forall j :: start <= j < first ==> events[j].ts < cutoff
    ensures first < |events| ==> cutoff <= events[first].ts
  {
    first := start;
    while first < |events| && events[first].ts < cutoff
      invariant start <= first <= |events|
      invariant forall j :: start <= j < first ==> events[j].ts < cutoff
    {
      first := first + 1;
    }
  }

  /** From a valid cursor, advancing finds the window's first event, and the events from there on
      are what the history shows for that window. */
  method WindowFrom(events: seq<Event>, start: nat, cutoff: int, ghost h: History, ghost key: Key, ghost now: int)
    returns (first: nat)
    requires Tally(events, Points(h, key)) && Ordered(Points(h, key), now) && CursorOk(Points(h, key), start, cutoff)
    requires forall i :: 0 <= i < |h| ==> h[i].status in LIVE
    ensures first <= |events| && CursorOk(Points(h, key), first, cutoff)
    ensures forall c: Counter :: Sum(Points(h, key)[first..], c) == Current(h, key, cutoff, c, true)
  {
    ghost var points := Points(h, key);
    first := AdvanceCursor(events, start, cutoff);
    forall j | start <= j < first ensures points[j].ts < cutoff {
      assert TallyAt(events, points, j);
    }
    if first < |events| {
      assert TallyAt(events, points, first);
    }
    forall c: Counter ensures Sum(points[first..], c) == Current(h, key, cutoff, c, true) {
      UsageIsSumSince(h, key, cutoff, c);
      SumSinceBoundary(points, cutoff, first, c);
    }
  }

  // ----- the state of the pass -----

  /** The windows of a rule, whichever list they come from. */
  ghost predicate HasWindow(rule: Rule, dimension: LimitKind, id: string, window: int, windowType: WindowType) {
    match dimension
    case RequestWindow => exists i :: 0 <= i < |rule.limits.requests| && IsWindow(rule.limits.requests[i], id, window, windowType)
    case TokenWindow => exists i :: 0 <= i < |rule.limits.tokens| && IsWindow(rule.limits.tokens[i], id, window, windowType)
    case DollarWindow => exists i :: 0 <= i < |rule.limits.dollars| && IsDollarWindow(rule.limits.dollars[i], id, window, windowType)
  }

  ghost predicate IsWindow(limit: WindowLimit, id: string, window: int, windowType: WindowType) {
    limit.id == id && limit.window == window && limit.windowType == windowType
  }

  ghost predicate IsDollarWindow(limit: DollarLimit, id: string, window: int, windowType: WindowType) {
    limit.id == id && limit.window == window && limit.windowType == windowType
  }

  lemma WindowUnique(policy: Policy, rule: Rule, dimension: LimitKind, id: string, w: int, t: WindowType, w2: int, t2: WindowType)
    requires ValidRule(policy, rule) && HasWindow(rule, dimension, id, w, t) && HasWindow(rule, dimension, id, w2, t2)
    ensures w == w2 && t == t2 && w > 0
  {
  }

  ghost predicate CursorsOk(policy: Policy, cursors: map<WindowKey, nat>, h: History, now: int) {
    forall rule, dimension, id, window, windowType ::
      rule in policy.rules && window > 0 && HasWindow(rule, dimension, id, window, windowType) ==>
        CursorOk(Points(h, RuleKey(policy, rule)), CursorOf(cursors, WindowKey(rule.id, dimension, id)),
                 WindowStart(now, window, windowType))
  }

  ghost predicate EventsOk(policy: Policy, history: map<Key, seq<Event>>, h: History, now: int) {
    forall rule :: rule in policy.rules && HasCounters(rule) ==>
      Tally(EventsOf(history, RuleKey(policy, rule)), Points(h, RuleKey(policy, rule)))
      && Ordered(Points(h, RuleKey(policy, rule)), now)
      && Small(Points(h, RuleKey(policy, rule)))
      && OnePerRequest(Points(h, RuleKey(policy, rule)))
  }

  ghost predicate OnePerRequest(points: seq<Point>) {
    forall i :: 0 <= i < |points| ==> points[i].usage.requests == 1
  }

  /** Requests of a rule still running after `t`, from the list of ends and from the history. */
  function EndsAfter(ends: seq<int>, t: int): int {
    if ends == [] then 0
    else EndsAfter(ends[..|ends| - 1], t) + (if ends[|ends| - 1] > t then 1 else 0)
  }

  ghost function HeldAfter(h: History, ends: seq<int>, key: Key, t: int): int
    requires |ends| == |h|
  {
    if h == [] then 0
    else
      var n := |h| - 1;
      HeldAfter(h[..n], ends[..n], key, t) + (if key in h[n].slotKeys && ends[n] > t then 1 else 0)
  }

  function RunningOf(inFlight: map<Key, seq<int>>, key: Key): seq<int> {
    if key in inFlight then inFlight[key] else []
  }

  ghost predicate RunningOk(policy: Policy, inFlight: map<Key, seq<int>>, h: History, ends: seq<int>, now: int)
    requires |ends| == |h|
  {
    forall rule, t :: rule in policy.rules && rule.limits.concurrency > 0 && t >= now ==>
      EndsAfter(RunningOf(inFlight, RuleKey(policy, rule)), t) == HeldAfter(h, ends, RuleKey(policy, rule), t)
  }

  lemma PointsSame(a: History, b: History, key: Key)
    requires |a| == |b| && forall i :: 0 <= i < |a| ==> SameButStatus(a[i], b[i])
    ensures Points(a, key) == Points(b, key)
    decreases |a|
  {
    if a != [] {
      assert SameButStatus(a[|a| - 1], b[|b| - 1]);
      PointsSame(a[..|a| - 1], b[..|b| - 1], key);
    }
  }

  lemma HeldSame(a: History, b: History, ends: seq<int>, key: Key, t: int)
    requires |a| == |b| == |ends| && forall i :: 0 <= i < |a| ==> SameButStatus(a[i], b[i])
    ensures HeldAfter(a, ends, key, t) == HeldAfter(b, ends, key, t)
    decreases |a|
  {
    if a != [] {
      assert SameButStatus(a[|a| - 1], b[|b| - 1]);
      HeldSame(a[..|a| - 1], b[..|b| - 1], ends[..|a| - 1], key, t);
    }
  }

  /** After releasing what ended by `now`, the slots held are the requests still running. */
  lemma {:induction false} SlotsAreRunning(h: History, ends: seq<int>, key: Key, now: int)
    requires |ends| == |h|
    requires forall i :: 0 <= i < |h| ==> h[i].status == (if ends[i] <= now then Done else Committed)
    ensures SlotsHeld(h, key) == HeldAfter(h, ends, key, now)
  {
    if h != [] {
      SlotsAreRunning(h[..|h| - 1], ends[..|h| - 1], key, now);
    }
  }

  method StillRunning(ends: seq<int>, now: int) returns (active: seq<int>)
    ensures |active| == EndsAfter(ends, now)
    ensures forall t :: t >= now ==> EndsAfter(active, t) == EndsAfter(ends, t)
  {
    active := [];
    for i := 0 to |ends|
      invariant |active| == EndsAfter(ends[..i], now)
      invariant forall t :: t >= now ==> EndsAfter(active, t) == EndsAfter(ends[..i], t)
    {
      assert ends[..i + 1][..i] == ends[..i];
      if ends[i] > now {
        assert (active + [ends[i]])[..|active|] == active;
        active := active + [ends[i]];
      }
    }
    assert ends[..|ends|] == ends;
  }

  // ----- one rule against one sample -----

  /** Everything the maps say, at a moment when the history `h` shows nothing later than `now`. */
  ghost predicate Linked(policy: Policy, history: map<Key, seq<Event>>, cursors: map<WindowKey, nat>,
                         inFlight: map<Key, seq<int>>, h: History, ends: seq<int>, now: int) {
    |ends| == |h| && (forall i :: 0 <= i < |h| ==> h[i].status in LIVE)
    && EventsOk(policy, history, h, now) && CursorsOk(policy, cursors, h, now) && RunningOk(policy, inFlight, h, ends, now)
  }

  lemma RuleEvents(policy: Policy, rule: Rule, history: map<Key, seq<Event>>, h: History, now: int)
    requires EventsOk(policy, history, h, now) && rule in policy.rules && HasCounters(rule)
    ensures Tally(EventsOf(history, RuleKey(policy, rule)), Points(h, RuleKey(policy, rule)))
    ensures Ordered(Points(h, RuleKey(policy, rule)), now) && Small(Points(h, RuleKey(policy, rule)))
    ensures OnePerRequest(Points(h, RuleKey(policy, rule)))
  {
  }

  lemma CursorMoved(policy: Policy, cursors: map<WindowKey, nat>, h: History, now: int, rule: Rule,
                    dimension: LimitKind, id: string, window: int, windowType: WindowType, first: nat)
    requires ValidPolicy(policy) && rule in policy.rules && CursorsOk(policy, cursors, h, now)
    requires window > 0 && HasWindow(rule, dimension, id, window, windowType)
    requires CursorOk(Points(h, RuleKey(policy, rule)), first, WindowStart(now, window, windowType))
    ensures CursorsOk(policy, cursors[WindowKey(rule.id, dimension, id) := first], h, now)
  {
    hide CursorOk, HasWindow, ValidRule;
    var moved := cursors[WindowKey(rule.id, dimension, id) := first];
    forall r, d, i, w, t | r in policy.rules && w > 0 && HasWindow(r, d, i, w, t)
      ensures CursorOk(Points(h, RuleKey(policy, r)), CursorOf(moved, WindowKey(r.id, d, i)), WindowStart(now, w, t))
    {
      if r.id == rule.id && d == dimension && i == id {
        assert r == rule && ValidRule(policy, rule);
        WindowUnique(policy, rule, dimension, id, window, windowType, w, t);
      }
    }
  }

  lemma CursorHere(policy: Policy, cursors: map<WindowKey, nat>, h: History, now: int, rule: Rule,
                   dimension: LimitKind, id: string, window: int, windowType: WindowType)
    requires rule in policy.rules && CursorsOk(policy, cursors, h, now)
    requires window > 0 && HasWindow(rule, dimension, id, window, windowType)
    ensures CursorOk(Points(h, RuleKey(policy, rule)), CursorOf(cursors, WindowKey(rule.id, dimension, id)),
                     WindowStart(now, window, windowType))
  {
    hide CursorOk, HasWindow;
  }

  method CheckRequests(policy: Policy, rule: Rule, now: int, events: seq<Event>, cursors: map<WindowKey, nat>,
                       ghost history: map<Key, seq<Event>>, ghost h: History)
    returns (found: seq<Violation>, moved: map<WindowKey, nat>)
    requires ValidPolicy(policy) && rule in policy.rules && events == EventsOf(history, RuleKey(policy, rule))
    requires forall i :: 0 <= i < |h| ==> h[i].status in LIVE
    requires EventsOk(policy, history, h, now) && CursorsOk(policy, cursors, h, now)
    ensures forall i :: 0 <= i < |rule.limits.requests| ==> rule.limits.requests[i].window > 0
    ensures found == RequestViolations(rule.limits.requests, RuleKey(policy, rule), now, h, true)
    ensures CursorsOk(policy, moved, h, now)
  {
    hide EventsOk, CursorsOk, CursorOk, Tally, Ordered, Small, Current, WindowStart, ValidPolicy, ValidRule;
    RuleValid(policy, rule);
    var limits := rule.limits.requests;
    found, moved := [], cursors;
    for i := 0 to |limits|
      invariant found == RequestViolations(limits[..i], RuleKey(policy, rule), now, h, true)
      invariant CursorsOk(policy, moved, h, now)
    {
      assert limits[..i + 1][..i] == limits[..i];
      var l := limits[i];
      assert IsWindow(limits[i], l.id, l.window, l.windowType);
      var windowKey := WindowKey(rule.id, RequestWindow, l.id);
      var cutoff := WindowStart(now, l.window, l.windowType);
      RuleEvents(policy, rule, history, h, now);
      CursorHere(policy, moved, h, now, rule, RequestWindow, l.id, l.window, l.windowType);
      WithinEvents(events, Points(h, RuleKey(policy, rule)), CursorOf(moved, windowKey), cutoff);
      var first := WindowFrom(events, CursorOf(moved, windowKey), cutoff, h, RuleKey(policy, rule), now);
      CursorMoved(policy, moved, h, now, rule, RequestWindow, l.id, l.window, l.windowType, first);
      moved := moved[windowKey := first];
      var current := |events| - first;
      CountsRequests(events, Points(h, RuleKey(policy, rule)), first);
      assert current == Current(h, RuleKey(policy, rule), cutoff, Requests, true);
      if current + 1 > l.max {
        found := found + [Violation(RequestLimit, "requests", l.id)];
      }
    }
    assert limits[..|limits|] == limits;
  }

  lemma RuleValid(policy: Policy, rule: Rule)
    requires ValidPolicy(policy) && rule in policy.rules
    ensures ValidRule(policy, rule)
    ensures forall i :: 0 <= i < |rule.limits.requests| ==> rule.limits.requests[i].window > 0 && 1 <= rule.limits.requests[i].max <= MAX_INT64
    ensures forall i :: 0 <= i < |rule.limits.tokens| ==> rule.limits.tokens[i].window > 0 && 1 <= rule.limits.tokens[i].max <= MAX_INT64
    ensures forall i :: 0 <= i < |rule.limits.dollars| ==>
              rule.limits.dollars[i].window > 0 && 1 <= rule.limits.dollars[i].maxMicroUSD <= MAX_INT64
  {
  }

  lemma WithinEvents(events: seq<Event>, points: seq<Point>, first: nat, cutoff: int)
    requires Tally(events, points) && CursorOk(points, first, cutoff)
    ensures first <= |events|
  {
  }

  lemma CountsRequests(events: seq<Event>, points: seq<Point>, first: nat)
    requires Tally(events, points) && OnePerRequest(points) && first <= |events|
    ensures Sum(points[first..], Requests) == |events| - first
  {
    RequestsAreCount(points[first..]);
  }

  /** Moves one window's cursor up to its cutoff and reads the exact usage after it. */
  method ReadWindow(policy: Policy, rule: Rule, dimension: LimitKind, id: string, window: int, windowType: WindowType, counter: Counter,
                    now: int, events: seq<Event>, cursors: map<WindowKey, nat>, ghost history: map<Key, seq<Event>>, ghost h: History)
    returns (current: U128, moved: map<WindowKey, nat>)
    requires ValidPolicy(policy) && rule in policy.rules && events == EventsOf(history, RuleKey(policy, rule)) && HasCounters(rule)
    requires |h| <= MAX_INT64 && forall i :: 0 <= i < |h| ==> h[i].status in LIVE
    requires EventsOk(policy, history, h, now) && CursorsOk(policy, cursors, h, now)
    requires window > 0 && HasWindow(rule, dimension, id, window, windowType) && counter != Requests
    ensures Uint128.Valid(current)
    ensures Value(current) == Current(h, RuleKey(policy, rule), WindowStart(now, window, windowType), counter, true)
    ensures CursorsOk(policy, moved, h, now)
  {
    hide EventsOk, CursorsOk, CursorOk, Tally, Ordered, Small, Current, WindowStart, ValidPolicy, HasWindow;
    PointsBounded(h, RuleKey(policy, rule));
    var windowKey := WindowKey(rule.id, dimension, id);
    var cutoff := WindowStart(now, window, windowType);
    RuleEvents(policy, rule, history, h, now);
    CursorHere(policy, cursors, h, now, rule, dimension, id, window, windowType);
    WithinEvents(events, Points(h, RuleKey(policy, rule)), CursorOf(cursors, windowKey), cutoff);
    var first := WindowFrom(events, CursorOf(cursors, windowKey), cutoff, h, RuleKey(policy, rule), now);
    CursorMoved(policy, cursors, h, now, rule, dimension, id, window, windowType, first);
    moved := cursors[windowKey := first];
    current := WindowPrefix(events, first, counter, Points(h, RuleKey(policy, rule)));
  }

  method CheckTokens(policy: Policy, rule: Rule, context: Context, now: int, events: seq<Event>, cursors: map<WindowKey, nat>,
                     ghost history: map<Key, seq<Event>>, ghost h: History)
    returns (found: seq<Violation>, moved: map<WindowKey, nat>)
    requires ValidPolicy(policy) && rule in policy.rules && events == EventsOf(history, RuleKey(policy, rule))
    requires |h| <= MAX_INT64 && forall i :: 0 <= i < |h| ==> h[i].status in LIVE
    requires EventsOk(policy, history, h, now) && CursorsOk(policy, cursors, h, now)
    ensures forall i :: 0 <= i < |rule.limits.tokens| ==> rule.limits.tokens[i].window > 0
    ensures found == TokenViolations(rule.limits.tokens, context, RuleKey(policy, rule), now, h, true)
    ensures CursorsOk(policy, moved, h, now)
  {
    hide EventsOk, CursorsOk, CursorOk, Tally, Ordered, Small, Current, WindowStart, ValidPolicy, ValidRule;
    RuleValid(policy, rule);
    var limits := rule.limits.tokens;
    found, moved := [], cursors;
    for i := 0 to |limits|
      invariant found == TokenViolations(limits[..i], context, RuleKey(policy, rule), now, h, true)
      invariant CursorsOk(policy, moved, h, now)
    {
      assert limits[..i + 1][..i] == limits[..i];
      var l := limits[i];
      var requested := EstimatedTokensForKind(context, l.kind);
      if requested.Some? {
        assert IsWindow(limits[i], l.id, l.window, l.windowType);
        var current;
        current, moved := ReadWindow(policy, rule, TokenWindow, l.id, l.window, l.windowType, KindCounter(l.kind), now, events, moved, history, h);
        assert requested.value >= 0;
        if GreaterThanInt64(current, l.max - requested.value) {
          found := found + [Violation(TokenLimit, KindName(l.kind), l.id)];
        }
      }
    }
    assert limits[..|limits|] == limits;
  }

  lemma {:induction false} PointsBounded(h: History, key: Key)
    ensures |Points(h, key)| <= |h|
  {
    if h != [] {
      PointsBounded(h[..|h| - 1], key);
    }
  }

  method CheckDollars(policy: Policy, rule: Rule, context: Context, now: int, events: seq<Event>, cursors: map<WindowKey, nat>,
                      ghost history: map<Key, seq<Event>>, ghost h: History)
    returns (found: seq<Violation>, moved: map<WindowKey, nat>)
    requires ValidPolicy(policy) && rule in policy.rules && events == EventsOf(history, RuleKey(policy, rule))
    requires |h| <= MAX_INT64 && forall i :: 0 <= i < |h| ==> h[i].status in LIVE
    requires EventsOk(policy, history, h, now) && CursorsOk(policy, cursors, h, now)
    ensures forall i :: 0 <= i < |rule.limits.dollars| ==> rule.limits.dollars[i].window > 0
    ensures found == DollarViolations(rule.limits.dollars, context, RuleKey(policy, rule), now, h, true)
    ensures CursorsOk(policy, moved, h, now)
  {
    hide EventsOk, CursorsOk, CursorOk, Tally, Ordered, Small, Current, WindowStart, ValidPolicy, ValidRule;
    RuleValid(policy, rule);
    var limits := rule.limits.dollars;
    found, moved := [], cursors;
    for i := 0 to |limits|
      invariant found == DollarViolations(limits[..i], context, RuleKey(policy, rule), now, h, true)
      invariant CursorsOk(policy, moved, h, now)
    {
      assert limits[..i + 1][..i] == limits[..i];
      var l := limits[i];
      var requested := ConservativeCostMicroUSD(context);
      if requested.None? {
        found := found + [Violation(EstimatedCostUnknown, "dollars", l.id)];
      } else {
        assert IsDollarWindow(limits[i], l.id, l.window, l.windowType);
        var current;
        current, moved := ReadWindow(policy, rule, DollarWindow, l.id, l.window, l.windowType, Cost, now, events, moved, history, h);
        if GreaterThanInt64(current, l.maxMicroUSD - requested.value) {
          found := found + [Violation(DollarLimitReached, "dollars", l.id)];
        }
      }
    }
    assert limits[..|limits|] == limits;
  }

  /** Findings about a request recorded without its output bound cannot include a missing bound. */
  function Blamable(violations: seq<Violation>, boundKnown: bool): seq<Violation> {
    if boundKnown then violations
    else if violations == [] then []
    else
      var n := |violations| - 1;
      Blamable(violations[..n], boundKnown)
      + (if violations[n].code == OutputBoundRequired then [] else [violations[n]])
  }

  lemma {:induction false} BlamableEmpty(violations: seq<Violation>, boundKnown: bool)
    ensures Blamable(violations, boundKnown) != []
            <==> exists v :: v in violations && (boundKnown || v.code != OutputBoundRequired)
  {
    if boundKnown {
      assert violations != [] ==> violations[0] in violations;
    } else if violations != [] {
      var n := |violations| - 1;
      BlamableEmpty(violations[..n], boundKnown);
      assert violations == violations[..n] + [violations[n]];
    }
  }

  lemma BlamableConcat(a: seq<Violation>, b: seq<Violation>, boundKnown: bool)
    ensures Blamable(a + b, boundKnown) != [] <==> Blamable(a, boundKnown) != [] || Blamable(b, boundKnown) != []
  {
    BlamableEmpty(a + b, boundKnown);
    BlamableEmpty(a, boundKnown);
    BlamableEmpty(b, boundKnown);
  }

  method EvaluateRule(policy: Policy, rule: Rule, sample: Sample, history: map<Key, seq<Event>>,
                      cursors: map<WindowKey, nat>, inFlight: map<Key, seq<int>>, ghost h: History, ghost ends: seq<int>)
    returns (broken: bool, moved: map<WindowKey, nat>, running: map<Key, seq<int>>)
    requires ValidPolicy(policy) && rule in policy.rules && |h| <= MAX_INT64
    requires Linked(policy, history, cursors, inFlight, h, ends, sample.ts)
    requires forall i :: 0 <= i < |h| ==> h[i].status == (if ends[i] <= sample.ts then Done else Committed)
    ensures ValidRule(policy, rule)
    ensures broken <==> Broken(policy, rule, sample.context, sample.ts, h, true, sample.admissionKnown)
    ensures Linked(policy, history, moved, running, h, ends, sample.ts)
  {
    hide EventsOk, CursorsOk, RunningOk, ValidPolicy, StaticViolations, IdentityScopeAuthenticated, ValidRule;
    hide RequestExceeded, TokenExceeded, DollarObjects, RequestViolations, TokenViolations, DollarViolations, Blamable;
    RuleValid(policy, rule);
    var key := RuleKey(policy, rule);
    var events := EventsOf(history, key);
    var identity := IdentityViolations(policy, rule, sample.context);
    var found := Blamable(StaticViolations(rule, sample.context) + identity, sample.admissionKnown);
    BlamableConcat(StaticViolations(rule, sample.context), identity, sample.admissionKnown);
    BlamableEmpty(StaticViolations(rule, sample.context), sample.admissionKnown);
    IdentityBlamable(policy, rule, sample.context, sample.admissionKnown);
    moved := cursors;
    var requests, tokens, dollars;
    requests, moved := CheckRequests(policy, rule, sample.ts, events, moved, history, h);
    tokens, moved := CheckTokens(policy, rule, sample.context, sample.ts, events, moved, history, h);
    dollars, moved := CheckDollars(policy, rule, sample.context, sample.ts, events, moved, history, h);
    RequestViolationsEmpty(rule.limits.requests, key, sample.ts, h, true);
    TokenViolationsEmpty(rule.limits.tokens, sample.context, key, sample.ts, h, true);
    DollarViolationsEmpty(rule.limits.dollars, sample.context, key, sample.ts, h, true);
    running := inFlight;
    var slots := false;
    if rule.limits.concurrency > 0 {
      var active := StillRunning(RunningOf(inFlight, key), sample.ts);
      running := inFlight[key := active];
      slots := |active| + 1 > rule.limits.concurrency;
      RunningRefreshed(policy, rule, inFlight, active, h, ends, sample.ts);
      SlotsAreRunning(h, ends, key, sample.ts);
    }
    broken := found != [] || requests != [] || tokens != [] || dollars != [] || slots;
  }

  lemma IdentityBlamable(policy: Policy, rule: Rule, context: Context, boundKnown: bool)
    ensures Blamable(IdentityViolations(policy, rule, context), boundKnown) != [] <==> IdentityViolations(policy, rule, context) != []
  {
    BlamableEmpty(IdentityViolations(policy, rule, context), boundKnown);
    var v := IdentityViolations(policy, rule, context);
    assert v != [] ==> v[0] in v && v[0].code == AuthenticatedIdentityRequired;
  }

  lemma RunningRefreshed(policy: Policy, rule: Rule, inFlight: map<Key, seq<int>>, active: seq<int>, h: History, ends: seq<int>, now: int)
    requires |ends| == |h| && RunningOk(policy, inFlight, h, ends, now)
    requires rule in policy.rules && rule.limits.concurrency > 0
    requires |active| == EndsAfter(RunningOf(inFlight, RuleKey(policy, rule)), now)
    requires forall t :: t >= now ==> EndsAfter(active, t) == EndsAfter(RunningOf(inFlight, RuleKey(policy, rule)), t)
    ensures RunningOk(policy, inFlight[RuleKey(policy, rule) := active], h, ends, now)
    ensures |active| == HeldAfter(h, ends, RuleKey(policy, rule), now)
  {
    hide EndsAfter, HeldAfter;
  }

  // ----- one sample -----

  /** Whether some of the first rules, of one mode, are broken. */
  ghost predicate BrokenAmong(policy: Policy, rules: seq<Rule>, mode: Mode, sample: Sample, h: History) {
    exists rule :: rule in rules && RuleMode(policy, rule) == mode && ValidRule(policy, rule)
                   && Broken(policy, rule, sample.context, sample.ts, h, true, sample.admissionKnown)
  }

  method EvaluateSample(policy: Policy, rules: seq<Rule>, sample: Sample, history: map<Key, seq<Event>>,
                        cursors: map<WindowKey, nat>, inFlight: map<Key, seq<int>>, ghost h: History, ghost ends: seq<int>)
    returns (outcome: Outcome, moved: map<WindowKey, nat>, running: map<Key, seq<int>>)
    requires ValidPolicy(policy) && rules == ApplicableRules(policy, sample.context) && |h| <= MAX_INT64
    requires Linked(policy, history, cursors, inFlight, h, ends, sample.ts)
    requires forall i :: 0 <= i < |h| ==> h[i].status == (if ends[i] <= sample.ts then Done else Committed)
    ensures outcome == ExactOutcome(policy, sample, h) && Judged(policy, sample, h, outcome)
    ensures Linked(policy, history, moved, running, h, ends, sample.ts)
  {
    hide Judged, Linked, ValidPolicy, ApplicableRules, Broken, SomeBroken, BrokenAmong, ValidRule;
    var deny, warned, observed := false, false, false;
    moved, running := cursors, inFlight;
    NoneBroken(policy, sample, h);
    for n := 0 to |rules|
      invariant Linked(policy, history, moved, running, h, ends, sample.ts)
      invariant deny <==> BrokenAmong(policy, rules[..n], Enforce, sample, h)
      invariant warned <==> BrokenAmong(policy, rules[..n], Warn, sample, h)
      invariant observed <==> BrokenAmong(policy, rules[..n], Observe, sample, h)
    {
      ApplicableMember(policy, sample.context, rules[n]);
      RuleValid(policy, rules[n]);
      var broken;
      broken, moved, running := EvaluateRule(policy, rules[n], sample, history, moved, running, h, ends);
      assert rules[..n + 1] == rules[..n] + [rules[n]];
      BrokenStep(policy, rules[..n], rules[n], Enforce, sample, h);
      BrokenStep(policy, rules[..n], rules[n], Warn, sample, h);
      BrokenStep(policy, rules[..n], rules[n], Observe, sample, h);
      if broken {
        match RuleMode(policy, rules[n])
        case Enforce => deny := true;
        case Warn => warned := true;
        case Observe => observed := true;
      }
    }
    assert rules[..|rules|] == rules;
    AllRulesSeen(policy, sample, Enforce, h);
    AllRulesSeen(policy, sample, Warn, h);
    AllRulesSeen(policy, sample, Observe, h);
    OutcomeJudged(policy, sample, h);
    outcome := if deny then Block else if warned then WarnOnly else if observed then ObserveOnly else Pass;
  }

  lemma NoneBroken(policy: Policy, sample: Sample, h: History)
    ensures forall mode :: !BrokenAmong(policy, [], mode, sample, h)
  {
  }

  lemma BrokenStep(policy: Policy, rules: seq<Rule>, rule: Rule, mode: Mode, sample: Sample, h: History)
    requires ValidRule(policy, rule)
    ensures BrokenAmong(policy, rules + [rule], mode, sample, h)
            <==> BrokenAmong(policy, rules, mode, sample, h)
                 || (RuleMode(policy, rule) == mode && Broken(policy, rule, sample.context, sample.ts, h, true, sample.admissionKnown))
  {
    hide Broken, ValidRule, RuleMode;
  }

  lemma AllRulesSeen(policy: Policy, sample: Sample, mode: Mode, h: History)
    requires ValidPolicy(policy)
    ensures BrokenAmong(policy, ApplicableRules(policy, sample.context), mode, sample, h) <==> SomeBroken(policy, mode, sample, h)
  {
    hide Broken, ValidRule, RuleMode, ApplicableRules, Applies, ValidPolicy;
    forall rule | rule in policy.rules ensures ValidRule(policy, rule) {
      RuleValid(policy, rule);
    }
    forall rule
      ensures rule in ApplicableRules(policy, sample.context) <==> rule in policy.rules && Applies(policy, rule, sample.context)
    {
      ApplicableMember(policy, sample.context, rule);
    }
  }

  // ----- counting an allowed sample -----

  /** One event per applicable rule, and one end for those with a concurrency limit when the
      request outlives its own timestamp. */
  method CountAllowed(policy: Policy, rules: seq<Rule>, sample: Sample, history: map<Key, seq<Event>>, inFlight: map<Key, seq<int>>)
    returns (counted: map<Key, seq<Event>>, running: map<Key, seq<int>>)
    requires DistinctIds(rules) && MachineContext(sample.context)
    requires forall key, j :: key in history && 0 <= j < |history[key]| ==> SoundEvent(history[key][j])
    ensures forall key, j :: key in counted && 0 <= j < |counted[key]| ==> SoundEvent(counted[key][j])
    ensures SmallUsage(sample.context) && Extended(policy, rules, history, counted, sample)
    ensures forall key :: RunningOf(running, key)
              == if LimitedUnder(policy, rules, key) && sample.end > sample.ts then RunningOf(inFlight, key) + [sample.end]
                 else RunningOf(inFlight, key)
  {
    hide DistinctIds, ListedUnder, LimitedUnder, AdmissionUsage, MachineContext, SoundEvent;
    AmountsSmall(sample.context);
    NothingListed(policy);
    counted, running := history, inFlight;
    for n := 0 to |rules|
      invariant forall key, j :: key in counted && 0 <= j < |counted[key]| ==> SoundEvent(counted[key][j])
      invariant Extended(policy, rules[..n], history, counted, sample)
      invariant forall key :: RunningOf(running, key)
                  == if LimitedUnder(policy, rules[..n], key) && sample.end > sample.ts then RunningOf(inFlight, key) + [sample.end]
                     else RunningOf(inFlight, key)
    {
      var key := RuleKey(policy, rules[n]);
      ListedExtends(policy, rules, n);
      var next := NextEvent(EventsOf(counted, key), sample.ts, AdmissionUsage(sample.context));
      NextSound(EventsOf(counted, key), sample.ts, AdmissionUsage(sample.context));
      counted := counted[key := EventsOf(counted, key) + [next]];
      if rules[n].limits.concurrency > 0 && sample.end > sample.ts {
        running := running[key := RunningOf(running, key) + [sample.end]];
      }
    }
    assert rules[..|rules|] == rules;
  }

  predicate SmallUsage(context: Context) {
    var u := AdmissionUsage(context);
    u.input <= MAX_INT64 && u.output <= MAX_INT64 && u.total <= MAX_INT64 && u.cost <= MAX_INT64
  }

  lemma AmountsSmall(context: Context)
    requires MachineContext(context)
    ensures SmallUsage(context)
    ensures NonNegative(AdmissionUsage(context))
  {
  }

  function NextOf(history: map<Key, seq<Event>>, key: Key, sample: Sample): Event
    requires forall k, j :: k in history && 0 <= j < |history[k]| ==> SoundEvent(history[k][j])
    requires SmallUsage(sample.context)
  {
    NextEvent(EventsOf(history, key), sample.ts, AdmissionUsage(sample.context))
  }

  /** The given rules each gained one event; every other list is as it was. */
  ghost predicate Extended(policy: Policy, rules: seq<Rule>, history: map<Key, seq<Event>>, counted: map<Key, seq<Event>>, sample: Sample)
    requires forall k, j :: k in history && 0 <= j < |history[k]| ==> SoundEvent(history[k][j])
    requires SmallUsage(sample.context)
  {
    forall key :: EventsOf(counted, key)
      == if ListedUnder(policy, rules, key) then EventsOf(history, key) + [NextOf(history, key, sample)] else EventsOf(history, key)
  }

  lemma NextSound(events: seq<Event>, ts: int, usage: Usage)
    requires forall j :: 0 <= j < |events| ==> SoundEvent(events[j])
    requires usage.input <= MAX_INT64 && usage.output <= MAX_INT64 && usage.total <= MAX_INT64 && usage.cost <= MAX_INT64
    ensures SoundEvent(NextEvent(events, ts, usage))
  {
    assert events != [] ==> SoundEvent(events[|events| - 1]);
  }

  ghost predicate ListedUnder(policy: Policy, rules: seq<Rule>, key: Key) {
    exists rule :: rule in rules && RuleKey(policy, rule) == key
  }

  ghost predicate LimitedUnder(policy: Policy, rules: seq<Rule>, key: Key) {
    exists rule :: rule in rules && rule.limits.concurrency > 0 && RuleKey(policy, rule) == key
  }

  lemma NothingListed(policy: Policy)
    ensures forall key :: !ListedUnder(policy, [], key) && !LimitedUnder(policy, [], key)
  {
  }

  lemma ListedExtends(policy: Policy, rules: seq<Rule>, n: nat)
    requires n < |rules| && DistinctIds(rules)
    ensures !ListedUnder(policy, rules[..n], RuleKey(policy, rules[n])) && !LimitedUnder(policy, rules[..n], RuleKey(policy, rules[n]))
    ensures forall key :: ListedUnder(policy, rules[..n + 1], key)
                          <==> ListedUnder(policy, rules[..n], key) || key == RuleKey(policy, rules[n])
    ensures forall key :: LimitedUnder(policy, rules[..n + 1], key)
                          <==> LimitedUnder(policy, rules[..n], key) || (rules[n].limits.concurrency > 0 && key == RuleKey(policy, rules[n]))
  {
    assert rules[..n + 1] == rules[..n] + [rules[n]];
  }

  // ----- moving from one sample to the next -----

  lemma LinkedLater(policy: Policy, history: map<Key, seq<Event>>, cursors: map<WindowKey, nat>, inFlight: map<Key, seq<int>>,
                    h: History, open: History, ends: seq<int>, before: int, now: int)
    requires Linked(policy, history, cursors, inFlight, h, ends, before) && 0 <= before <= now
    requires |open| == |h| && forall i :: 0 <= i < |h| ==> SameButStatus(open[i], h[i]) && open[i].status in LIVE
    ensures Linked(policy, history, cursors, inFlight, open, ends, now)
  {
    forall key ensures Points(open, key) == Points(h, key) { PointsSame(open, h, key); }
    forall key, t ensures HeldAfter(open, ends, key, t) == HeldAfter(h, ends, key, t) { HeldSame(open, h, ends, key, t); }
    EventsLater(policy, history, h, open, before, now);
    CursorsLater(policy, cursors, h, open, before, now);
  }

  lemma EventsLater(policy: Policy, history: map<Key, seq<Event>>, h: History, open: History, before: int, now: int)
    requires EventsOk(policy, history, h, before) && before <= now && forall key :: Points(open, key) == Points(h, key)
    ensures EventsOk(policy, history, open, now)
  {
    hide Tally, Small, OnePerRequest, HasCounters;
  }

  lemma CursorsLater(policy: Policy, cursors: map<WindowKey, nat>, h: History, open: History, before: int, now: int)
    requires CursorsOk(policy, cursors, h, before) && 0 <= before <= now && forall key :: Points(open, key) == Points(h, key)
    ensures CursorsOk(policy, cursors, open, now)
  {
    hide HasWindow, WindowStart;
    forall rule, d, id, w, t | rule in policy.rules && w > 0 && HasWindow(rule, d, id, w, t)
      ensures CursorOk(Points(open, RuleKey(policy, rule)), CursorOf(cursors, WindowKey(rule.id, d, id)), WindowStart(now, w, t))
    {
      WindowStartMonotone(before, now, w, t);
      assert CursorOk(Points(h, RuleKey(policy, rule)), CursorOf(cursors, WindowKey(rule.id, d, id)), WindowStart(before, w, t));
    }
  }

  lemma PointsAppend(h: History, e: Entry, key: Key)
    ensures Points(h + [e], key) == Points(h, key) + (if key in e.counterKeys then [Point(e.ts, e.usage)] else [])
  {
    assert (h + [e])[..|h|] == h;
  }

  lemma HeldAppend(h: History, e: Entry, ends: seq<int>, end: int, key: Key, t: int)
    requires |ends| == |h|
    ensures HeldAfter(h + [e], ends + [end], key, t)
            == HeldAfter(h, ends, key, t) + (if key in e.slotKeys && end > t then 1 else 0)
  {
    assert (h + [e])[..|h|] == h && (ends + [end])[..|h|] == ends;
  }

  lemma EndsAppend(ends: seq<int>, end: int, t: int)
    ensures EndsAfter(ends + [end], t) == EndsAfter(ends, t) + (if end > t then 1 else 0)
  {
    assert (ends + [end])[..|ends|] == ends;
  }

  lemma ListedApplies(policy: Policy, context: Context, rule: Rule)
    requires ValidPolicy(policy) && rule in policy.rules
    ensures ListedUnder(policy, ApplicableRules(policy, context), RuleKey(policy, rule)) <==> Applies(policy, rule, context)
    ensures LimitedUnder(policy, ApplicableRules(policy, context), RuleKey(policy, rule))
            <==> Applies(policy, rule, context) && rule.limits.concurrency > 0
    ensures RuleKey(policy, rule) in CounterKeys(policy, context) <==> Applies(policy, rule, context) && HasCounters(rule)
    ensures RuleKey(policy, rule) in SlotKeys(policy, context) <==> Applies(policy, rule, context) && rule.limits.concurrency > 0
  {
    hide Applies, ApplicableRules, HasCounters;
    RuleValid(policy, rule);
    ApplicableMember(policy, context, rule);
    forall r | r in ApplicableRules(policy, context) && RuleKey(policy, r) == RuleKey(policy, rule)
      ensures r == rule
    {
      ApplicableMember(policy, context, r);
    }
  }

  lemma EventsAfterAllowed(policy: Policy, history: map<Key, seq<Event>>, counted: map<Key, seq<Event>>, h: History, e: Entry, sample: Sample)
    requires ValidPolicy(policy) && EventsOk(policy, history, h, sample.ts) && |h| < MAX_INT64 && MachineContext(sample.context)
    requires forall key, j :: key in history && 0 <= j < |history[key]| ==> SoundEvent(history[key][j])
    requires SmallUsage(sample.context) && Extended(policy, ApplicableRules(policy, sample.context), history, counted, sample)
    requires e.ts == sample.ts && e.usage == AdmissionUsage(sample.context) && e.counterKeys == CounterKeys(policy, sample.context)
    ensures EventsOk(policy, counted, h + [e], sample.ts)
  {
    hide EventsOk, Tally, CounterKeys, ApplicableRules, Applies, AdmissionUsage, ValidPolicy, ListedUnder, SoundEvent, MachineContext, SmallUsage;
    AmountsSmall(sample.context);
    forall rule | rule in policy.rules && HasCounters(rule)
      ensures var key := RuleKey(policy, rule);
              Tally(EventsOf(counted, key), Points(h + [e], key)) && Ordered(Points(h + [e], key), sample.ts)
              && Small(Points(h + [e], key)) && OnePerRequest(Points(h + [e], key))
    {
      var key := RuleKey(policy, rule);
      RuleEvents(policy, rule, history, h, sample.ts);
      PointsAppend(h, e, key);
      ListedApplies(policy, sample.context, rule);
      PointsBounded(h, key);
      if Applies(policy, rule, sample.context) {
        NewPoint(Points(h, key), sample);
        TallyAppend(EventsOf(history, key), Points(h, key), sample.ts, AdmissionUsage(sample.context));
      } else {
        assert Points(h, key) + [] == Points(h, key);
      }
    }
    EventsPacked(policy, counted, h + [e], sample.ts);
  }

  lemma NewPoint(points: seq<Point>, sample: Sample)
    requires Ordered(points, sample.ts) && Small(points) && OnePerRequest(points) && MachineContext(sample.context)
    ensures var all := points + [Point(sample.ts, AdmissionUsage(sample.context))];
            Ordered(all, sample.ts) && Small(all) && OnePerRequest(all)
  {
    var u := AdmissionUsage(sample.context);
    AmountsSmall(sample.context);
    assert forall c: Counter :: 0 <= Amount(u, c) <= MAX_INT64;
  }

  lemma EventsPacked(policy: Policy, history: map<Key, seq<Event>>, h: History, now: int)
    requires forall rule :: rule in policy.rules && HasCounters(rule) ==>
               Tally(EventsOf(history, RuleKey(policy, rule)), Points(h, RuleKey(policy, rule)))
               && Ordered(Points(h, RuleKey(policy, rule)), now) && Small(Points(h, RuleKey(policy, rule)))
               && OnePerRequest(Points(h, RuleKey(policy, rule)))
    ensures EventsOk(policy, history, h, now)
  {
  }

  lemma CursorsAfterAllowed(policy: Policy, cursors: map<WindowKey, nat>, h: History, e: Entry, now: int)
    requires CursorsOk(policy, cursors, h, now)
    ensures CursorsOk(policy, cursors, h + [e], now)
  {
    hide HasWindow, WindowStart;
    forall rule, d, id, w, t | rule in policy.rules && w > 0 && HasWindow(rule, d, id, w, t)
      ensures CursorOk(Points(h + [e], RuleKey(policy, rule)), CursorOf(cursors, WindowKey(rule.id, d, id)), WindowStart(now, w, t))
    {
      PointsAppend(h, e, RuleKey(policy, rule));
      assert CursorOk(Points(h, RuleKey(policy, rule)), CursorOf(cursors, WindowKey(rule.id, d, id)), WindowStart(now, w, t));
    }
  }

  lemma RunningAfterAllowed(policy: Policy, inFlight: map<Key, seq<int>>, running: map<Key, seq<int>>, h: History, ends: seq<int>, e: Entry, sample: Sample)
    requires ValidPolicy(policy) && |ends| == |h| && RunningOk(policy, inFlight, h, ends, sample.ts)
    requires forall key :: RunningOf(running, key)
               == if LimitedUnder(policy, ApplicableRules(policy, sample.context), key) && sample.end > sample.ts
                  then RunningOf(inFlight, key) + [sample.end] else RunningOf(inFlight, key)
    requires e.slotKeys == SlotKeys(policy, sample.context)
    ensures RunningOk(policy, running, h + [e], ends + [sample.end], sample.ts)
  {
    hide SlotKeys, ApplicableRules, Applies, ValidPolicy, LimitedUnder;
    forall rule, t | rule in policy.rules && rule.limits.concurrency > 0 && t >= sample.ts
      ensures EndsAfter(RunningOf(running, RuleKey(policy, rule)), t) == HeldAfter(h + [e], ends + [sample.end], RuleKey(policy, rule), t)
    {
      ListedApplies(policy, sample.context, rule);
      HeldAppend(h, e, ends, sample.end, RuleKey(policy, rule), t);
      EndsAppend(RunningOf(inFlight, RuleKey(policy, rule)), sample.end, t);
    }
  }

  // ----- the whole pass -----

  datatype Report = Report(
    requests: int, wouldAllow: int, wouldDeny: int, wouldWarn: int, wouldObserve: int, outcomes: seq<Outcome>)

  function Count(outcomes: seq<Outcome>, outcome: Outcome): int {
    if outcomes == [] then 0
    else Count(outcomes[..|outcomes| - 1], outcome) + (if outcomes[|outcomes| - 1] == outcome then 1 else 0)
  }

  lemma CountAppend(outcomes: seq<Outcome>, last: Outcome, outcome: Outcome)
    ensures Count(outcomes + [last], outcome) == Count(outcomes, outcome) + (if last == outcome then 1 else 0)
  {
    assert (outcomes + [last])[..|outcomes|] == outcomes;
  }

  /** The report's counts are counts of its outcomes. */
  ghost predicate Tallied(report: Report) {
    report.requests == |report.outcomes|
    && report.wouldDeny == Count(report.outcomes, Block)
    && report.wouldWarn == Count(report.outcomes, WarnOnly) && report.wouldObserve == Count(report.outcomes, ObserveOnly)
    && report.wouldAllow + report.wouldDeny == report.requests
  }

  function Recorded(report: Report, outcome: Outcome): Report {
    Report(report.requests + 1,
           report.wouldAllow + (if outcome == Block then 0 else 1),
           report.wouldDeny + (if outcome == Block then 1 else 0),
           report.wouldWarn + (if outcome == WarnOnly then 1 else 0),
           report.wouldObserve + (if outcome == ObserveOnly then 1 else 0),
           report.outcomes + [outcome])
  }

  lemma RecordedTallied(report: Report, outcome: Outcome)
    requires Tallied(report)
    ensures Tallied(Recorded(report, outcome)) && Recorded(report, outcome).requests == report.requests + 1
    ensures Recorded(report, outcome).outcomes == report.outcomes + [outcome]
  {
    CountAppend(report.outcomes, outcome, Block);
    CountAppend(report.outcomes, outcome, WarnOnly);
    CountAppend(report.outcomes, outcome, ObserveOnly);
  }

  predicate Earlier(a: Sample, b: Sample) { a.ts < b.ts }

  function InOrder(samples: seq<Sample>): seq<Sample> { StableSort(samples, Earlier) }

  /** Between samples: the maps follow the exact replay of what was read so far. */
  ghost predicate Following(policy: Policy, s: State, history: map<Key, seq<Event>>, cursors: map<WindowKey, nat>,
                            inFlight: map<Key, seq<int>>, now: int) {
    Linked(policy, history, cursors, inFlight, s.history, s.ends, now) && 0 <= now
    && (forall key, j :: key in history && 0 <= j < |history[key]| ==> SoundEvent(history[key][j]))
    && forall i :: 0 <= i < |s.history| ==>
         (s.history[i].status == Committed || s.history[i].status == Done) && (s.history[i].status == Done ==> s.ends[i] <= now)
  }

  method ReplaySample(policy: Policy, sample: Sample, history: map<Key, seq<Event>>, cursors: map<WindowKey, nat>,
                      inFlight: map<Key, seq<int>>, ghost s: State, ghost before: int)
    returns (outcome: Outcome, counted: map<Key, seq<Event>>, moved: map<WindowKey, nat>, running: map<Key, seq<int>>)
    requires ValidPolicy(policy) && MachineContext(sample.context) && |s.history| < MAX_INT64
    requires Following(policy, s, history, cursors, inFlight, before) && before <= sample.ts
    ensures ExactStep(policy, s, sample).outcomes == s.outcomes + [outcome]
    ensures Following(policy, ExactStep(policy, s, sample), counted, moved, running, sample.ts)
    ensures |ExactStep(policy, s, sample).history| <= |s.history| + 1
  {
    hide EventsOk, CursorsOk, RunningOk, ValidPolicy, ApplicableRules, ExactOutcome, Judged, MachineContext, CounterKeys, SlotKeys, AdmissionUsage;
    hide ListedUnder, LimitedUnder, SoundEvent, SmallUsage, DistinctIds;
    ghost var open := ReleaseEnded(s.history, s.ends, sample.ts, |s.ends|);
    ReleaseEndedEffect(s.history, s.ends, sample.ts, |s.ends|);
    LinkedLater(policy, history, cursors, inFlight, s.history, open, s.ends, before, sample.ts);
    var rules := ApplicableRules(policy, sample.context);
    outcome, moved, running := EvaluateSample(policy, rules, sample, history, cursors, inFlight, open, s.ends);
    counted := history;
    if outcome != Block {
      ghost var kept := running;
      ApplicableDistinct(policy, sample.context);
      counted, running := CountAllowed(policy, rules, sample, history, running);
      ghost var e := NewEntry(policy, sample.context, sample.ts).(status := Committed);
      EventsAfterAllowed(policy, history, counted, open, e, sample);
      CursorsAfterAllowed(policy, moved, open, e, sample.ts);
      RunningAfterAllowed(policy, kept, running, open, s.ends, e, sample);
    }
  }

  /** The simulator's report is the exact replay of the samples in stable time order, each judged by
      the broken rules' modes; with ReplayRefinesEngine, what it blocks is what the live engine
      denies. */
  method Simulate(policy: Policy, samples: seq<Sample>) returns (report: Report)
    requires ValidPolicy(policy) && |samples| <= MAX_INT64
    requires forall i :: 0 <= i < |samples| ==> samples[i].ts >= 0 && MachineContext(samples[i].context)
    ensures report.outcomes == ExactReplay(policy, InOrder(samples)).outcomes
    ensures |report.outcomes| == |InOrder(samples)| == |samples|
    ensures forall i :: 0 <= i < |samples| ==> Judged(policy, InOrder(samples)[i], Standing(policy, InOrder(samples), i), report.outcomes[i])
    ensures Tallied(report) && report.requests == |samples|
  {
    hide *;
    var ordered := InOrder(samples);
    InTimeOrder(samples);
    OutcomesExactly(policy, ordered);
    report := Report(0, 0, 0, 0, 0, []);
    NothingCounted();
    var history: map<Key, seq<Event>>, cursors: map<WindowKey, nat>, inFlight: map<Key, seq<int>> := map[], map[], map[];
    ghost var now, s := 0, State([], [], []);
    NothingFollowed(policy);
    for i := 0 to |ordered|
      invariant s == ExactReplay(policy, ordered[..i]) && report.outcomes == s.outcomes
      invariant Following(policy, s, history, cursors, inFlight, now) && |s.history| <= i
      invariant now == if i == 0 then 0 else ordered[i - 1].ts
      invariant Tallied(report) && report.requests == i
    {
      ReplayStep(policy, ordered, i);
      var outcome;
      outcome, history, cursors, inFlight := ReplaySample(policy, ordered[i], history, cursors, inFlight, s, now);
      now := ordered[i].ts;
      s := ExactStep(policy, s, ordered[i]);
      RecordedTallied(report, outcome);
      report := Recorded(report, outcome);
    }
    assert ordered[..|ordered|] == ordered;
  }

  lemma ReplayStep(policy: Policy, samples: seq<Sample>, i: nat)
    requires ValidPolicy(policy) && i < |samples|
    ensures ExactReplay(policy, samples[..i + 1]) == ExactStep(policy, ExactReplay(policy, samples[..i]), samples[i])
  {
    hide ValidPolicy, ExactStep;
    assert samples[..i + 1][..i] == samples[..i];
  }

  lemma NothingCounted()
    ensures Tallied(Report(0, 0, 0, 0, 0, []))
  {
  }

  lemma NothingFollowed(policy: Policy)
    requires ValidPolicy(policy)
    ensures ExactReplay(policy, []) == State([], [], [])
    ensures Following(policy, State([], [], []), map[], map[], map[], 0)
  {
  }

  lemma InTimeOrder(samples: seq<Sample>)
    requires forall i :: 0 <= i < |samples| ==> samples[i].ts >= 0 && MachineContext(samples[i].context)
    ensures var ordered := InOrder(samples);
            |ordered| == |samples|
            && (forall i :: 0 <= i < |ordered| ==> ordered[i].ts >= 0 && MachineContext(ordered[i].context))
            && forall i, j :: 0 <= i < j < |ordered| ==> ordered[i].ts <= ordered[j].ts
  {
    hide MachineContext;
    assert StrictWeakOrder(Earlier);
    StableSortSorted(samples, Earlier);
    var ordered := StableSort(samples, Earlier);
    forall i | 0 <= i < |ordered| ensures ordered[i].ts >= 0 && MachineContext(ordered[i].context) {
      SameMembers(samples, Earlier, ordered[i]);
    }
  }

  // ----- ties keep ledger order -----

  function At(samples: seq<Sample>, ts: int): seq<Sample> {
    if samples == [] then []
    else At(samples[..|samples| - 1], ts) + (if samples[|samples| - 1].ts == ts then [samples[|samples| - 1]] else [])
  }

  lemma AtAppend(samples: seq<Sample>, last: Sample, ts: int)
    ensures At(samples + [last], ts) == At(samples, ts) + (if last.ts == ts then [last] else [])
  {
    assert (samples + [last])[..|samples|] == samples;
  }

  lemma {:induction false} InsertKeepsTies(s: seq<Sample>, x: Sample, ts: int)
    ensures At(Insert(s, x, Earlier), ts) == At(s, ts) + (if x.ts == ts then [x] else [])
  {
    if s != [] && Earlier(x, s[|s| - 1]) {
      var front, last := s[..|s| - 1], s[|s| - 1];
      InsertKeepsTies(front, x, ts);
      AtAppend(Insert(front, x, Earlier), last, ts);
    } else {
      AtAppend(s, x, ts);
    }
  }

  /** Samples with the same timestamp are replayed in the order the ledger gave them. */
  lemma {:induction false} TiesKeepOrder(samples: seq<Sample>, ts: int)
    ensures At(InOrder(samples), ts) == At(samples, ts)
  {
    if samples != [] {
      TiesKeepOrder(samples[..|samples| - 1], ts);
      InsertKeepsTies(StableSort(samples[..|samples| - 1], Earlier), samples[|samples| - 1], ts);
    }
  }

  /** End to end: for samples the engine would judge, in any ledger order, the simulator blocks
      the i-th in time exactly when the live engine denies it. */
  lemma SimulatorMatchesEngine(policy: Policy, samples: seq<Sample>)
    requires ValidPolicy(policy)
    requires forall i :: 0 <= i < |samples| ==>
               samples[i].ts >= 0 && samples[i].admissionKnown && !BadEstimate(samples[i].context) && !Unrepresentable(samples[i].context)
    ensures var ordered := InOrder(samples);
            Blocked(ExactReplay(policy, ordered).outcomes) == Blocked(LiveReplay(policy, ordered).outcomes)
  {
    hide BadEstimate, Unrepresentable, ValidPolicy, ExactReplay, LiveReplay;
    var ordered := StableSort(samples, Earlier);
    assert StrictWeakOrder(Earlier);
    StableSortSorted(samples, Earlier);
    forall i | 0 <= i < |ordered|
      ensures ordered[i].ts >= 0 && ordered[i].admissionKnown && !BadEstimate(ordered[i].context) && !Unrepresentable(ordered[i].context)
    {
      SameMembers(samples, Earlier, ordered[i]);
    }
    assert forall i, j :: 0 <= i < j < |ordered| ==> !Earlier(ordered[j], ordered[i]);
    ReplayRefinesEngine(policy, ordered);
  }
}
