/** Cumulative counters become usage events, and none of a rollout's usage is lost or counted
    twice on the way. */
module CodexDeltas {
  import opened Common
  import opened CodexTypes

  const ZERO := Totals(0, 0, 0)

  function Plus(a: Totals, b: Totals): Totals { Totals(a.input + b.input, a.cached + b.cached, a.output + b.output) }

  function Minus(a: Totals, b: Totals): Totals { Totals(a.input - b.input, a.cached - b.cached, a.output - b.output) }

  /** A counter that went down was restarted. */
  predicate Resets(before: Totals, after: Totals) {
    after.input < before.input || after.cached < before.cached || after.output < before.output
  }

  function Delta(usage: seq<Record>, i: nat): Totals
    requires i < |usage|
  {
    var before := if i == 0 then ZERO else usage[i - 1].total;
    if Resets(before, usage[i].total) then usage[i].total else Minus(usage[i].total, before)
  }

  datatype Event = Event(model: string, time: int, input: int, output: int, cacheRead: int)

  predicate Emits(usage: seq<Record>, skip: nat, since: int, i: nat)
    requires i < |usage|
  {
    var d := Delta(usage, i);
    skip <= i && d.input + d.output != 0 && usage[i].time.Some? && since <= usage[i].time.value
  }

  function EventAt(usage: seq<Record>, i: nat): Event
    requires i < |usage| && usage[i].time.Some?
  {
    var d := Delta(usage, i);
    Event(usage[i].model, usage[i].time.value, Max(0, d.input - d.cached), d.output, d.cached)
  }

  /** Events of the first `n` records. */
  function Events(usage: seq<Record>, n: nat, skip: nat, since: int): seq<Event>
    requires n <= |usage|
  {
    if n == 0 then []
    else Events(usage, n - 1, skip, since) + (if Emits(usage, skip, since, n - 1) then [EventAt(usage, n - 1)] else [])
  }

  // ----- what an event says -----

  /** A record's own rise: from the record before it, or from nothing at the start and when any
      counter went down. Before the start every counter stands at nothing. */
  ghost predicate Rose(usage: seq<Record>, i: nat, input: int, cached: int, output: int)
    requires i < |usage|
  {
    var now := usage[i].total;
    if i > 0 && usage[i - 1].total.input <= now.input && usage[i - 1].total.cached <= now.cached && usage[i - 1].total.output <= now.output
    then usage[i - 1].total.input + input == now.input && usage[i - 1].total.cached + cached == now.cached
         && usage[i - 1].total.output + output == now.output
    else input == now.input && cached == now.cached && output == now.output
  }

  /** The event has its record's model and time; its cached and output tokens are the record's rises,
      and its fresh tokens what the rise in input leaves beyond the cached ones, or none. */
  ghost predicate Tells(usage: seq<Record>, i: nat, e: Event)
    requires i < |usage|
  {
    e.model == usage[i].model && usage[i].time == Some(e.time)
    && exists input :: Rose(usage, i, input, e.cacheRead, e.output) && e.input == if e.cacheRead <= input then input - e.cacheRead else 0
  }

  /** A record is told when it is no inherited one, has a time in the period, and used something. */
  ghost predicate Told(usage: seq<Record>, skip: nat, since: int, i: nat)
    requires i < |usage|
  {
    skip <= i && usage[i].time.Some? && since <= usage[i].time.value
    && exists input, cached, output :: Rose(usage, i, input, cached, output) && input + output != 0
  }

  /** The k-th event is that of the k-th record to be told. */
  ghost predicate Traced(usage: seq<Record>, n: nat, skip: nat, since: int, events: seq<Event>, told: seq<nat>)
    requires n <= |usage|
  {
    |told| == |events|
    && (forall k :: 0 <= k < |told| ==> told[k] < n && Told(usage, skip, since, told[k]) && Tells(usage, told[k], events[k]))
    && (forall k, l :: 0 <= k < l < |told| ==> told[k] < told[l])
    && forall i: nat :: i < n && Told(usage, skip, since, i) ==> i in told
  }

  lemma RiseIsDelta(usage: seq<Record>, i: nat, input: int, cached: int, output: int)
    requires i < |usage|
    ensures Rose(usage, i, input, cached, output) <==> Totals(input, cached, output) == Delta(usage, i)
  {
  }

  lemma ToldIsEmitted(usage: seq<Record>, skip: nat, since: int, i: nat)
    requires i < |usage|
    ensures Told(usage, skip, since, i) <==> Emits(usage, skip, since, i)
    ensures Emits(usage, skip, since, i) ==> usage[i].time.Some? && Tells(usage, i, EventAt(usage, i))
  {
    hide Rose, Delta;
    var d := Delta(usage, i);
    RiseIsDelta(usage, i, d.input, d.cached, d.output);
    forall input, cached, output ensures Rose(usage, i, input, cached, output) <==> Totals(input, cached, output) == d {
      RiseIsDelta(usage, i, input, cached, output);
    }
  }

  lemma TracedStep(usage: seq<Record>, n: nat, skip: nat, since: int, events: seq<Event>, told: seq<nat>, e: Event)
    requires n < |usage| && Traced(usage, n, skip, since, events, told)
    ensures !Told(usage, skip, since, n) ==> Traced(usage, n + 1, skip, since, events, told)
    ensures Told(usage, skip, since, n) && Tells(usage, n, e) ==> Traced(usage, n + 1, skip, since, events + [e], told + [n])
  {
    hide Told, Tells;
    var more := told + [n];
    assert more[|told|] == n && forall k :: 0 <= k < |told| ==> more[k] == told[k];
    forall i: nat | i < n && Told(usage, skip, since, i) ensures i in told && i in more {
    }
  }

  lemma {:induction false} EventsTraced(usage: seq<Record>, n: nat, skip: nat, since: int) returns (told: seq<nat>)
    requires n <= |usage|
    ensures Traced(usage, n, skip, since, Events(usage, n, skip, since), told)
  {
    hide Told, Tells, Emits, EventAt, Traced;
    if n == 0 {
      NothingTold(usage, skip, since);
      told := [];
    } else {
      told := EventsTraced(usage, n - 1, skip, since);
      var front := Events(usage, n - 1, skip, since);
      ToldIsEmitted(usage, skip, since, n - 1);
      if Emits(usage, skip, since, n - 1) {
        TracedStep(usage, n - 1, skip, since, front, told, EventAt(usage, n - 1));
        told := told + [n - 1];
      } else {
        TracedStep(usage, n - 1, skip, since, front, told, Event("", 0, 0, 0, 0));
        assert front + [] == front;
      }
    }
  }

  lemma NothingTold(usage: seq<Record>, skip: nat, since: int)
    ensures Traced(usage, 0, skip, since, [], [])
  {
  }

  method EmitDeltas(usage: seq<Record>, skip: nat, since: int) returns (events: seq<Event>)
    ensures events == Events(usage, |usage|, skip, since)
    ensures exists told: seq<nat> :: Traced(usage, |usage|, skip, since, events, told)
  {
    ghost var told := EventsTraced(usage, |usage|, skip, since);
    events := [];
    var prev := ZERO;
    for i := 0 to |usage|
      invariant events == Events(usage, i, skip, since)
      invariant prev == if i == 0 then ZERO else usage[i - 1].total
    {
      var cur := usage[i].total;
      var d := Minus(cur, prev);
      if d.input < 0 || d.cached < 0 || d.output < 0 {
        d := cur;
      }
      assert d == Delta(usage, i);
      prev := cur;
      if !(i < skip || d.input + d.output == 0 || usage[i].time.None? || usage[i].time.value < since) {
        var input := d.input - d.cached;
        if input < 0 {
          input := 0;
        }
        events := events + [Event(usage[i].model, usage[i].time.value, input, d.output, d.cached)];
      }
    }
  }

  // ----- what was really used -----

  /** The last record before a restart, or the last one of all. */
  predicate EndsSegment(totals: seq<Totals>, i: nat)
    requires i < |totals|
  {
    i == |totals| - 1 || Resets(totals[i], totals[i + 1])
  }

  function SegmentSum(totals: seq<Totals>, n: nat): Totals
    requires n <= |totals|
  {
    if n == 0 then ZERO
    else Plus(SegmentSum(totals, n - 1), if EndsSegment(totals, n - 1) then totals[n - 1] else ZERO)
  }

  /** Usage behind a run of cumulative counters: the final count of every stretch between restarts. */
  function Used(totals: seq<Totals>): Totals { SegmentSum(totals, |totals|) }

  lemma {:induction false} SegmentsAgree(totals: seq<Totals>, n: nat, k: nat)
    requires n < k <= |totals|
    ensures SegmentSum(totals[..k], n) == SegmentSum(totals, n)
  {
    if n > 0 {
      SegmentsAgree(totals, n - 1, k);
    }
  }

  lemma SegmentStep(totals: seq<Totals>, n: nat)
    requires 0 < n <= |totals|
    ensures SegmentSum(totals, n) == Plus(SegmentSum(totals, n - 1), if EndsSegment(totals, n - 1) then totals[n - 1] else ZERO)
  {
  }

  lemma NoSegments(totals: seq<Totals>)
    ensures SegmentSum(totals, 0) == ZERO
  {
  }

  /** One more record adds its delta. */
  lemma UsedGrows(usage: seq<Record>, n: nat)
    requires n < |usage|
    ensures Used(TotalsOf(usage)[..n + 1]) == Plus(Used(TotalsOf(usage)[..n]), Delta(usage, n))
  {
    hide SegmentSum;
    var totals := TotalsOf(usage);
    var shorter, longer := totals[..n], totals[..n + 1];
    NoSegments(shorter);
    NoSegments(longer);
    SegmentStep(longer, n + 1);
    if n > 0 {
      SegmentStep(longer, n);
      SegmentStep(shorter, n);
      SegmentsAgree(totals, n - 1, n);
      SegmentsAgree(totals, n - 1, n + 1);
      assert longer[n - 1] == shorter[n - 1] == usage[n - 1].total;
    }
  }

  // ----- conservation -----

  ghost predicate NonNegative(usage: seq<Record>) {
    forall i :: 0 <= i < |usage| ==> usage[i].total.input >= 0 && usage[i].total.cached >= 0 && usage[i].total.output >= 0
  }

  ghost predicate AllSince(usage: seq<Record>, since: int) {
    forall i :: 0 <= i < |usage| ==> usage[i].time.Some? && since <= usage[i].time.value
  }

  /** An emitted delta claims more cached input than input. */
  ghost predicate Overcached(usage: seq<Record>, skip: nat, since: int, i: nat)
    requires i < |usage|
  {
    Emits(usage, skip, since, i) && Delta(usage, i).cached > Delta(usage, i).input
  }

  function OutputOf(events: seq<Event>): int {
    if events == [] then 0 else OutputOf(events[..|events| - 1]) + events[|events| - 1].output
  }

  /** Fresh and cached input together. */
  function InputOf(events: seq<Event>): int {
    if events == [] then 0
    else InputOf(events[..|events| - 1]) + events[|events| - 1].input + events[|events| - 1].cacheRead
  }

  function FreshOf(events: seq<Event>): int {
    if events == [] then 0 else FreshOf(events[..|events| - 1]) + events[|events| - 1].input
  }

  function CachedOf(events: seq<Event>): int {
    if events == [] then 0 else CachedOf(events[..|events| - 1]) + events[|events| - 1].cacheRead
  }

  lemma PartsAppend(events: seq<Event>, e: Event)
    ensures FreshOf(events + [e]) == FreshOf(events) + e.input
    ensures CachedOf(events + [e]) == CachedOf(events) + e.cacheRead
  {
    assert (events + [e])[..|events|] == events;
  }

  /** A live record's cached rise is more than its whole input. */
  ghost predicate Excess(usage: seq<Record>, skip: nat, i: nat)
    requires i < |usage|
  {
    skip <= i && exists input, cached, output :: Rose(usage, i, input, cached, output) && cached > input
  }

  /** A live record's cached rise comes with no other use, and is dropped with it. */
  ghost predicate CachedAlone(usage: seq<Record>, skip: nat, i: nat)
    requires i < |usage|
  {
    skip <= i && exists cached :: Rose(usage, i, 0, cached, 0) && cached > 0
  }

  lemma ExcessOfDelta(usage: seq<Record>, skip: nat, i: nat)
    requires i < |usage|
    ensures Excess(usage, skip, i) <==> skip <= i && Delta(usage, i).cached > Delta(usage, i).input
    ensures CachedAlone(usage, skip, i) <==> skip <= i && Delta(usage, i).input == 0 && Delta(usage, i).output == 0 && Delta(usage, i).cached > 0
  {
    hide Rose, Delta;
    var d := Delta(usage, i);
    forall input, cached, output ensures Rose(usage, i, input, cached, output) <==> Totals(input, cached, output) == d {
      RiseIsDelta(usage, i, input, cached, output);
    }
    assert Rose(usage, i, d.input, d.cached, d.output);
  }

  /** Cached and fresh input apart, record by record: cached tokens are all emitted exactly when none
      come alone, and fresh ones are input less cached exactly when no cached rise exceeds its input. */
  lemma {:induction false} PartsSoFar(usage: seq<Record>, n: nat, skip: nat, since: int)
    requires NonNegative(usage) && AllSince(usage, since) && skip <= n <= |usage|
    ensures var events, used := Events(usage, n, skip, since), Minus(Used(TotalsOf(usage)[..n]), Used(TotalsOf(usage)[..skip]));
            CachedOf(events) <= used.cached && FreshOf(events) >= used.input - used.cached
            && (CachedOf(events) == used.cached <==> forall i :: 0 <= i < n ==> !CachedAlone(usage, skip, i))
            && (FreshOf(events) == used.input - used.cached <==> forall i :: 0 <= i < n ==> !Excess(usage, skip, i))
  {
    hide Used, Delta, FreshOf, CachedOf, Excess, CachedAlone;
    if n == skip {
      NothingYet(usage, n, skip, since);
      NoParts();
      forall i | 0 <= i < n ensures !CachedAlone(usage, skip, i) && !Excess(usage, skip, i) {
        ExcessOfDelta(usage, skip, i);
      }
    } else {
      PartsSoFar(usage, n - 1, skip, since);
      UsedGrows(usage, n - 1);
      DeltaNonNegative(usage, n - 1);
      ExcessOfDelta(usage, skip, n - 1);
      var front := Events(usage, n - 1, skip, since);
      assert (forall i :: 0 <= i < n ==> !CachedAlone(usage, skip, i))
          <==> (forall i :: 0 <= i < n - 1 ==> !CachedAlone(usage, skip, i)) && !CachedAlone(usage, skip, n - 1);
      assert (forall i :: 0 <= i < n ==> !Excess(usage, skip, i))
          <==> (forall i :: 0 <= i < n - 1 ==> !Excess(usage, skip, i)) && !Excess(usage, skip, n - 1);
      if Emits(usage, skip, since, n - 1) {
        PartsAppend(front, EventAt(usage, n - 1));
      } else {
        assert front + [] == front;
      }
    }
  }

  lemma NoParts()
    ensures FreshOf([]) == 0 && CachedOf([]) == 0
  {
  }

  /** Over a whole rollout, where no cached rise exceeds its input, every cached token is emitted as
      cached and every other input token as fresh; each half holds exactly under its own condition. */
  lemma PartsConserved(usage: seq<Record>, skip: nat, since: int)
    requires NonNegative(usage) && AllSince(usage, since) && skip <= |usage|
    ensures var events, used := Events(usage, |usage|, skip, since), Minus(Used(TotalsOf(usage)), Used(TotalsOf(usage)[..skip]));
            CachedOf(events) <= used.cached && FreshOf(events) >= used.input - used.cached
            && (CachedOf(events) == used.cached <==> forall i :: 0 <= i < |usage| ==> !CachedAlone(usage, skip, i))
            && (FreshOf(events) == used.input - used.cached <==> forall i :: 0 <= i < |usage| ==> !Excess(usage, skip, i))
    ensures (forall i :: 0 <= i < |usage| ==> !Excess(usage, skip, i)) ==> forall i :: 0 <= i < |usage| ==> !CachedAlone(usage, skip, i)
  {
    PartsSoFar(usage, |usage|, skip, since);
    assert TotalsOf(usage)[..|usage|] == TotalsOf(usage);
    forall i | 0 <= i < |usage| && !Excess(usage, skip, i) ensures !CachedAlone(usage, skip, i) {
      ExcessOfDelta(usage, skip, i);
    }
  }

  // ----- what usage means -----

  ghost predicate Rising(totals: seq<Totals>) {
    forall i, j :: 0 <= i < j < |totals| && j == i + 1 ==> !Resets(totals[i], totals[j])
  }

  lemma {:induction false} NoSegmentYet(totals: seq<Totals>, n: nat)
    requires n < |totals| && Rising(totals)
    ensures SegmentSum(totals, n) == ZERO
  {
    if n > 0 {
      NoSegmentYet(totals, n - 1);
      SegmentStep(totals, n);
    }
  }

  /** Without a restart what was used is the last count. */
  lemma UsedWithoutRestart(totals: seq<Totals>)
    requires totals != [] && Rising(totals)
    ensures Used(totals) == totals[|totals| - 1]
  {
    hide SegmentSum;
    NoSegmentYet(totals, |totals| - 1);
    SegmentStep(totals, |totals|);
  }

  lemma SegmentsOfBoth(a: seq<Totals>, b: seq<Totals>, i: nat)
    requires a != [] && b != [] && Resets(a[|a| - 1], b[0]) && i < |a| + |b|
    ensures (a + b)[i] == if i < |a| then a[i] else b[i - |a|]
    ensures EndsSegment(a + b, i) <==> if i < |a| then EndsSegment(a, i) else EndsSegment(b, i - |a|)
  {
  }

  lemma {:induction false} SegmentsConcat(a: seq<Totals>, b: seq<Totals>, n: nat)
    requires a != [] && b != [] && Resets(a[|a| - 1], b[0]) && n <= |a| + |b|
    ensures SegmentSum(a + b, n) == if n <= |a| then SegmentSum(a, n) else Plus(Used(a), SegmentSum(b, n - |a|))
  {
    hide EndsSegment, Resets, SegmentSum;
    if n == 0 {
      NoSegments(a);
      NoSegments(a + b);
    } else {
      SegmentsConcat(a, b, n - 1);
      SegmentsOfBoth(a, b, n - 1);
      SegmentStep(a + b, n);
      if n <= |a| {
        SegmentStep(a, n);
      } else {
        NoSegments(b);
        SegmentStep(b, n - |a|);
      }
    }
  }

  /** Across a restart, what was used before it and since add up. */
  lemma UsedAcrossRestart(a: seq<Totals>, b: seq<Totals>)
    requires a != [] && b != [] && Resets(a[|a| - 1], b[0])
    ensures Used(a + b) == Plus(Used(a), Used(b))
  {
    SegmentsConcat(a, b, |a| + |b|);
  }

  lemma SumAppend(events: seq<Event>, e: Event)
    ensures OutputOf(events + [e]) == OutputOf(events) + e.output
    ensures InputOf(events + [e]) == InputOf(events) + e.input + e.cacheRead
  {
    assert (events + [e])[..|events|] == events;
  }

  /** Conservation, record by record: what has been emitted is what was used since the inherited
      prefix, and input matches too exactly when no emitted delta claims more cached than input. */
  lemma {:induction false} EmittedSoFar(usage: seq<Record>, n: nat, skip: nat, since: int)
    requires NonNegative(usage) && AllSince(usage, since) && skip <= n <= |usage|
    ensures var events, used := Events(usage, n, skip, since), Minus(Used(TotalsOf(usage)[..n]), Used(TotalsOf(usage)[..skip]));
            OutputOf(events) == used.output && InputOf(events) >= used.input
            && (InputOf(events) == used.input <==> forall i :: 0 <= i < n ==> !Overcached(usage, skip, since, i))
  {
    hide Used, Delta, OutputOf, InputOf;
    if n == skip {
      NothingYet(usage, n, skip, since);
    } else {
      EmittedSoFar(usage, n - 1, skip, since);
      UsedGrows(usage, n - 1);
      DeltaNonNegative(usage, n - 1);
      var front := Events(usage, n - 1, skip, since);
      assert (forall i :: 0 <= i < n ==> !Overcached(usage, skip, since, i))
          <==> (forall i :: 0 <= i < n - 1 ==> !Overcached(usage, skip, since, i)) && !Overcached(usage, skip, since, n - 1);
      if Emits(usage, skip, since, n - 1) {
        SumAppend(front, EventAt(usage, n - 1));
      } else {
        assert front + [] == front;
      }
    }
  }

  lemma DeltaNonNegative(usage: seq<Record>, i: nat)
    requires NonNegative(usage) && i < |usage|
    ensures Delta(usage, i).input >= 0 && Delta(usage, i).cached >= 0 && Delta(usage, i).output >= 0
  {
  }

  lemma {:induction false} NothingYet(usage: seq<Record>, n: nat, skip: nat, since: int)
    requires n <= skip && n <= |usage|
    ensures Events(usage, n, skip, since) == [] && OutputOf([]) == 0 && InputOf([]) == 0
  {
    if n > 0 {
      NothingYet(usage, n - 1, skip, since);
    }
  }

  /** Over a whole rollout. */
  lemma Conservation(usage: seq<Record>, skip: nat, since: int)
    requires NonNegative(usage) && AllSince(usage, since) && skip <= |usage|
    ensures var events, used := Events(usage, |usage|, skip, since), Minus(Used(TotalsOf(usage)), Used(TotalsOf(usage)[..skip]));
            OutputOf(events) == used.output && InputOf(events) >= used.input
            && (InputOf(events) == used.input <==> forall i :: 0 <= i < |usage| ==> !Overcached(usage, skip, since, i))
            && (CachedOf(events) == used.cached <==> forall i :: 0 <= i < |usage| ==> !CachedAlone(usage, skip, i))
            && (FreshOf(events) == used.input - used.cached <==> forall i :: 0 <= i < |usage| ==> !Excess(usage, skip, i))
  {
    hide Used, Overcached, CachedAlone, Excess, Events, OutputOf, InputOf, CachedOf, FreshOf;
    PartsConserved(usage, skip, since);
    EmittedSoFar(usage, |usage|, skip, since);
    assert TotalsOf(usage)[..|usage|] == TotalsOf(usage);
  }
}
