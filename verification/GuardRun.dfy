/** Whole runs of the live guard, by its only writer: call for call they are runs of module
    BudgetSafety, so the caps proved there bound the guard's own log. */
module GuardRun {
  import opened Common
  import opened Budget
  import opened BudgetBooks
  import opened BudgetGuard
  import Safety = BudgetSafety

  /** Local days never go back, windows start on seconds, and reservations settle no higher. */
  ghost predicate Timely(settings: Settings, calendar: Calendar, steps: seq<Safety.Step>)
    requires ValidSettings(settings)
  {
    (forall i :: 0 <= i < |steps| && steps[i].Admit? ==> TimelyAdmit(settings, calendar, steps[i].now))
    && forall i, j :: 0 <= i < j < |steps| && steps[i].Admit? && steps[j].Admit? ==>
         calendar.local(Daily, steps[i].now) <= calendar.local(Daily, steps[j].now)
  }

  ghost predicate TimelyAdmit(settings: Settings, calendar: Calendar, now: int)
    requires ValidSettings(settings)
  {
    now >= 0 && calendar.local(Daily, now) != 0 && WholeBaseline(settings, now)
  }

  /** The guard, alone with its ledger, stands where the log's run stands. */
  ghost predicate At(guard: Guard, state: Safety.State)
    reads guard, guard.store, guard.issued
  {
    guard.Valid() && guard.sole && guard.orderly && guard.store.revision % 2 == 0
    && guard.log == state.log && guard.store.trip == state.trip
  }

  method AdmitStep(guard: Guard, settings: Settings, now: int, agent: string, usd: real, world: World, ghost state: Safety.State)
    returns (reservation: Reservation?)
    requires ValidSettings(settings) && At(guard, state) && CalmWorld(world) && usd >= 0.0
    requires TimelyAdmit(settings, guard.calendar, now) && Follows(guard.calendar, guard.lastNow, now)
    modifies guard, guard.store
    ensures At(guard, Safety.Next(settings, guard.calendar, state, Safety.Admit(now, agent, usd)))
    ensures guard.lastNow == old(guard.lastNow) || guard.lastNow == Some(now)
    ensures reservation != null ==> fresh(reservation)
    ensures guard.issued == old(guard.issued) + (if reservation == null then [] else [reservation])
  {
    hide BooksAgree, Warm, Near, MedianKept, Admission, Follows, CalmWorld, WholeBaseline, Safety.Next, TripAfter, BudgetBooks.Taken;
    ghost var held, log, trip, was, rows := guard.Reserved(), guard.log, guard.store.trip, guard.lastNow, guard.store.rows;
    assert BooksAgree(guard.calendar, held, log, true, was, true, rows);
    var verdict;
    verdict, reservation := guard.Admit(settings, now, agent, Estimate(usd, true, true), world);
    AdmitIsStep(settings, guard.calendar, held, log, trip, was, rows, now, agent, usd, verdict.value, guard.log, guard.store.trip);
  }

  method SettleStep(guard: Guard, settings: Settings, index: nat, ts: int, cost: real, unsafe: bool, insertOk: bool,
                    handles: seq<Reservation>, ghost state: Safety.State)
    requires ValidSettings(settings) && At(guard, state) && cost >= 0.0
    requires handles == guard.issued && (index < |handles| ==> ts == guard.log[index].ts)
    modifies guard, guard.store, handles
    ensures At(guard, Safety.Next(settings, guard.calendar, state, Safety.Settle(index, cost, unsafe, insertOk)))
    ensures guard.lastNow == old(guard.lastNow) && guard.issued == old(guard.issued)
  {
    hide BooksAgree, Warm, Near, MedianKept, Returned, Safety.AdmitVerdict;
    if index < |handles| {
      var reservation := handles[index];
      assert reservation.Tracks(guard.log[index], guard.calendar);
      var ok := reservation.Settle(Some(ts), reservation.agent, cost, unsafe, insertOk, Writes([], 0));
    }
  }

  method ReleaseStep(guard: Guard, settings: Settings, index: nat, handles: seq<Reservation>, ghost state: Safety.State)
    requires ValidSettings(settings) && At(guard, state) && handles == guard.issued
    modifies guard, guard.store, handles
    ensures At(guard, Safety.Next(settings, guard.calendar, state, Safety.Release(index)))
    ensures guard.lastNow == old(guard.lastNow) && guard.issued == old(guard.issued)
  {
    hide BooksAgree, Warm, Near, MedianKept, Returned, Safety.AdmitVerdict;
    if index < |handles| {
      var reservation := handles[index];
      assert reservation.Tracks(guard.log[index], guard.calendar);
      reservation.Release();
    }
  }

  function WithHandle(handles: seq<Reservation>, reservation: Reservation?): seq<Reservation> {
    if reservation == null then handles else handles + [reservation]
  }

  /** Carries out the steps on a fresh guard over an empty ledger, settling each request with its
      admission time. However they interleave, the guard's log is the run of the steps, and every
      configured cap and the fan-out breaker bound it. */
  method Drive(store: Store, calendar: Calendar, settings: Settings, steps: seq<Safety.Step>, world: World, times: seq<int>) returns (guard: Guard)
    requires ValidSettings(settings) && TrueCalendar(calendar) && CalmWorld(world)
    requires store.rows == [] && store.revision % 2 == 0 && store.trip == None
    requires Timely(settings, calendar, steps) && Safety.HonestRun(settings, calendar, steps)
    requires |times| == |steps| && forall i :: 0 <= i < |steps| ==> Stamped(settings, calendar, steps, times, i)
    modifies store
    ensures fresh(guard) && guard.calendar == calendar && At(guard, Safety.Run(settings, calendar, steps))
    ensures Safety.ValidCalendar(calendar) && Safety.Positive(settings) ==>
              forall f: Safety.Frame, cap: real :: Safety.Bounds(settings, calendar, f, cap) ==> Safety.CapKept(guard.log, f, cap)
    ensures Safety.FanoutKept(settings, guard.log)
  {
    hide BooksAgree, Warm, Near, MedianKept, Safety.Next, Safety.AdmitVerdict, CalmWorld, TrueCalendar, Safety.CapKept, Safety.FanoutKept;
    guard := new Guard(store, calendar);
    var handles: seq<Reservation> := [];
    for i := 0 to |steps|
      invariant At(guard, Safety.Run(settings, calendar, steps[..i]))
      invariant guard.store == store && guard.calendar == calendar && handles == guard.issued
      invariant forall r :: r in handles ==> fresh(r)
      invariant forall j :: i <= j < |steps| && steps[j].Admit? ==> Follows(calendar, guard.lastNow, steps[j].now)
    {
      ghost var state := Safety.Run(settings, calendar, steps[..i]);
      assert steps[..i + 1][..i] == steps[..i];
      assert Safety.Honest(state, steps[i]) && Stamped(settings, calendar, steps, times, i);
      match steps[i]
      case Admit(now, agent, usd) =>
        var reservation := AdmitStep(guard, settings, now, agent, usd, world, state);
        handles := WithHandle(handles, reservation);
      case Settle(index, cost, unsafe, insertOk) =>
        SettleStep(guard, settings, index, times[i], cost, unsafe, insertOk, handles, state);
      case Release(index) =>
        ReleaseStep(guard, settings, index, handles, state);
    }
    assert steps[..|steps|] == steps;
    if Safety.ValidCalendar(calendar) && Safety.Positive(settings) {
      forall f: Safety.Frame, cap: real | Safety.Bounds(settings, calendar, f, cap) ensures Safety.CapKept(guard.log, f, cap) {
        Safety.CapsAreKept(settings, calendar, steps, f, cap);
      }
    }
    Safety.FanoutIsKept(settings, calendar, steps);
  }

  /** A settling step carries its request's admission time. */
  ghost predicate Stamped(settings: Settings, calendar: Calendar, steps: seq<Safety.Step>, times: seq<int>, i: nat)
    requires ValidSettings(settings) && i < |steps| && |times| == |steps|
  {
    var log := Safety.Run(settings, calendar, steps[..i]).log;
    steps[i].Settle? && steps[i].index < |log| ==> times[i] == log[steps[i].index].ts
  }
}
