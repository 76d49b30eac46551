/** Whole runs of the live engine under one policy: call for call they are runs of module Admission,
    so the limits proved there hold of the engine's own maps and rows. */
module EngineRun {
  import opened Common
  import opened PolicyTypes
  import opened Admission
  import opened PolicyEngine
  import opened WindowSafety

  /** The engine stands where the run stands, and `handles` are its reservations in order. */
  ghost predicate At(engine: Engine, h: History, handles: seq<Reservation>)
    reads engine, engine.store, engine.issued
  {
    engine.Valid() && engine.offset == 0 && engine.history == h && engine.issued == handles
  }

  lemma HandlesMatch(engine: Engine, h: History, handles: seq<Reservation>)
    requires At(engine, h, handles)
    ensures |handles| == |h|
    ensures forall i :: 0 <= i < |handles| ==> handles[i].engine == engine && handles[i].Issued() && handles[i].Index() == i
  {
    hide Agrees;
  }

  method PrepareStep(engine: Engine, now: int, context: Context, policy: Option<Policy>, storeOk: bool,
                     handles: seq<Reservation>, ghost h: History) returns (more: seq<Reservation>)
    requires At(engine, h, handles) && (policy.Some? ==> ValidPolicy(policy.value))
    modifies engine, engine.store
    ensures At(engine, Next(h, Step.Prepare(now, context, policy, storeOk)), more)
    ensures handles <= more && forall i :: |handles| <= i < |more| ==> fresh(more[i])
  {
    hide engine.Valid, ValidPolicy, Next, Decide, PreparedRecord;
    var result := engine.Prepare(now, context, policy, storeOk);
    return if result.AdmittedWith? then handles + [result.reservation] else handles;
  }

  method CloseStep(engine: Engine, step: Step, storeOk: bool, handles: seq<Reservation>, ghost h: History)
    requires At(engine, h, handles) && !step.Prepare?
    modifies engine, engine.store, handles
    ensures At(engine, Next(h, step), handles)
  {
    hide engine.Valid, FinalRecord;
    HandlesMatch(engine, h, handles);
    if step.index < |handles| {
      match step
      case Commit(index, ok) => var committed := handles[index].Commit(ok);
      case Cancel(index) => var cancelled := handles[index].Cancel(storeOk);
      case Release(index) => handles[index].Release();
    }
  }

  /** Every enforcing window and concurrency limit bounds the history. */
  ghost predicate LimitsKept(policy: Policy, h: History) {
    (forall cap: Cap :: Enforced(policy, cap) ==> Respected(policy, cap, h))
    && forall rule :: rule in policy.rules && RuleMode(policy, rule) == Enforce && rule.limits.concurrency > 0 ==> SlotsRespected(policy, rule, h)
  }

  /** Carries out the steps on a fresh engine over an empty store. However they interleave, the
      engine's history is the run of the steps, so every enforcing limit bounds it; what its maps
      and rows show for a rule is that history's usage and slots. */
  method Drive(store: Store, policy: Policy, steps: seq<Step>, cancelOk: nat -> bool) returns (engine: Engine)
    requires store.decisions == [] && ValidPolicy(policy) && RunUnder(policy, steps)
    modifies store
    ensures fresh(engine) && engine.store == store && engine.Valid() && engine.history == Run(steps)
    ensures LimitsKept(policy, engine.history)
    ensures forall key :: SlotCount(engine.inFlight, key) == SlotsHeld(engine.history, key)
    ensures forall key, since, counter ::
              StoredAmount(store.decisions, key, since, counter) == UsageIn(engine.history, Span(key, since, None), DURABLE, counter)
  {
    hide Agrees, Next, ValidPolicy, Enforced, Respected, SlotsRespected, Represents, SoundStore;
    NothingStored();
    engine := new Engine(store);
    var handles: seq<Reservation> := [];
    OffsetZero(engine);
    for i := 0 to |steps|
      invariant engine.store == store && At(engine, Run(steps[..i]), handles)
      invariant forall k :: 0 <= k < |handles| ==> fresh(handles[k])
    {
      assert steps[..i + 1][..i] == steps[..i];
      assert ValidStep(steps[i]);
      if steps[i].Prepare? {
        handles := PrepareStep(engine, steps[i].now, steps[i].context, steps[i].policy, steps[i].storeOk, handles, Run(steps[..i]));
      } else {
        CloseStep(engine, steps[i], cancelOk(i), handles, Run(steps[..i]));
      }
    }
    assert steps[..|steps|] == steps;
    RunKeepsLimits(policy, steps);
    MapsShowHistory(engine);
  }

  lemma NothingStored()
    ensures SoundStore([]) && Past([]) == []
  {
  }

  lemma OffsetZero(engine: Engine)
    requires engine.Valid() && engine.history == [] && engine.issued == []
    ensures At(engine, [], [])
  {
    hide Agrees;
  }

  lemma RunKeepsLimits(policy: Policy, steps: seq<Step>)
    requires ValidPolicy(policy) && RunUnder(policy, steps)
    ensures LimitsKept(policy, Run(steps))
  {
    hide Enforced, Respected, SlotsRespected, ValidPolicy, RuleMode;
    forall cap: Cap | Enforced(policy, cap) ensures Respected(policy, cap, Run(steps)) {
      WindowsAreSafe(policy, cap, steps);
    }
    forall rule | rule in policy.rules && RuleMode(policy, rule) == Enforce && rule.limits.concurrency > 0
      ensures SlotsRespected(policy, rule, Run(steps))
    {
      ConcurrencyIsSafe(policy, rule, steps);
    }
  }

  lemma MapsShowHistory(engine: Engine)
    requires engine.Valid()
    ensures forall key :: SlotCount(engine.inFlight, key) == SlotsHeld(engine.history, key)
    ensures forall key, since, counter ::
              StoredAmount(engine.store.decisions, key, since, counter) == UsageIn(engine.history, Span(key, since, None), DURABLE, counter)
  {
    hide PendingAgrees;
  }
}
