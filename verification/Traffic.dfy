/** Other requests in flight: whatever they call on the two guards, in whatever order, they leave
    everyone else's reservations alone. */
module Traffic {
  import opened Common
  import PolicyTypes
  import Admission
  import Policy = PolicyEngine
  import Budget
  import Money = BudgetGuard
  import Safety = BudgetSafety

  datatype Act =
    | Prepare(now: int, context: PolicyTypes.Context, policy: Option<PolicyTypes.Policy>, storeOk: bool)
    | Commit(index: nat, storeOk: bool)
    | Cancel(index: nat, storeOk: bool)
    | ReleasePolicy(index: nat)
    | Admit(settings: Budget.Settings, at: int, agent: string, estimate: Budget.Estimate, world: Money.World)
    | Settle(index: nat, ts: Option<int>, owner: string, cost: real, unsafe: bool, insertOk: bool, waiting: Money.Writes)
    | ReleaseBudget(index: nat)
    | Write(writes: Money.Writes)

  ghost predicate Possible(act: Act, calendar: Budget.Calendar) {
    match act
    case Prepare(_, _, policy, _) => policy.Some? ==> PolicyTypes.ValidPolicy(policy.value)
    case Admit(settings, at, _, _, _) => Budget.ValidSettings(settings) && at >= 0 && calendar.local(Budget.Daily, at) != 0
    case _ => true
  }

  /** Away from the touched positions there is nothing new, and what there was is unchanged. */
  ghost predicate Same(before: Admission.History, after: Admission.History, touched: set<int>) {
    |before| <= |after| && forall i :: 0 <= i < |after| && i !in touched ==> i < |before| && after[i] == before[i]
  }

  ghost predicate SameLog(before: Safety.Log, after: Safety.Log, touched: set<int>) {
    |before| <= |after| && forall i :: 0 <= i < |after| && i !in touched ==> i < |before| && after[i] == before[i]
  }

  ghost predicate OnlyAt(before: Admission.History, after: Admission.History, position: int) {
    |after| == |before| && forall i :: 0 <= i < |before| && i != position ==> after[i] == before[i]
  }

  ghost function PolicyPositions(held: seq<Policy.Reservation>): set<int> {
    set i | 0 <= i < |held| :: held[i].Index()
  }

  ghost function BudgetPositions(held: seq<Money.Reservation>): set<int> {
    set i | 0 <= i < |held| :: held[i].index as int
  }

  /** Everything an admission's answer depends on. */
  datatype View = View(rows: seq<Budget.Row>, revision: nat, trip: Option<int>, held: Budget.Held, orderly: bool, last: Option<int>)

  ghost function Sight(guard: Money.Guard): View
    reads guard, guard.store
  {
    View(guard.store.rows, guard.store.revision, guard.store.trip, guard.Reserved(), guard.orderly, guard.lastNow)
  }

  class Others {
    const engine: Policy.Engine
    const guard: Money.Guard
    var policies: seq<Policy.Reservation>
    var budgets: seq<Money.Reservation>

    ghost predicate Holding()
      reads this, engine, guard, policies, budgets
    {
      (forall i :: 0 <= i < |policies| ==> policies[i].engine == engine && policies[i].Issued())
      && (forall i :: 0 <= i < |budgets| ==> budgets[i].guard == guard && budgets[i].Issued())
    }

    ghost predicate Valid()
      reads this, engine, engine.store, engine.issued, guard, guard.store, guard.issued, policies, budgets
    {
      engine.Valid() && guard.Valid() && Holding()
    }

    constructor (engine: Policy.Engine, guard: Money.Guard)
      requires engine.Valid() && guard.Valid()
      ensures Valid() && this.engine == engine && this.guard == guard && policies == [] && budgets == []
    {
      this.engine, this.guard := engine, guard;
      policies, budgets := [], [];
    }

    method PrepareOther(now: int, context: PolicyTypes.Context, policy: Option<PolicyTypes.Policy>, storeOk: bool)
      requires Valid() && (policy.Some? ==> PolicyTypes.ValidPolicy(policy.value))
      modifies this`policies, engine, engine.store
      ensures Valid() && old(engine.issued) <= engine.issued && old(policies) <= policies
      ensures forall i :: |old(policies)| <= i < |policies| ==> fresh(policies[i])
      ensures Same(old(engine.history), engine.history, PolicyPositions(policies))
    {
      hide engine.Valid, guard.Valid, Admission.Next, Admission.Decide, Policy.PreparedRecord;
      PrepareTouches(engine.history, now, context, policy, storeOk);
      OneEntryEach(engine);
      var result := engine.Prepare(now, context, policy, storeOk);
      OneEntryEach(engine);
      if result.AdmittedWith? {
        LastIsIssued(engine, result.reservation);
        policies := policies + [result.reservation];
        assert policies[|policies| - 1].Index() in PolicyPositions(policies);
      }
    }

    method CommitOther(index: nat, storeOk: bool)
      requires Valid() && index < |policies|
      modifies engine, engine.store, policies
      ensures Valid() && engine.issued == old(engine.issued)
      ensures Same(old(engine.history), engine.history, PolicyPositions(policies))
    {
      hide engine.Valid, guard.Valid, Admission.Next;
      CloseTouches(engine.history, policies[index].Index(), storeOk);
      assert policies[index].Index() in PolicyPositions(policies);
      ghost var h, position := engine.history, policies[index].Index();
      var ok := policies[index].Commit(storeOk);
      Wider(h, engine.history, position, PolicyPositions(policies));
    }

    method CancelOther(index: nat, storeOk: bool)
      requires Valid() && index < |policies|
      modifies engine, engine.store, policies
      ensures Valid() && engine.issued == old(engine.issued)
      ensures Same(old(engine.history), engine.history, PolicyPositions(policies))
    {
      hide engine.Valid, guard.Valid, Admission.Next;
      CloseTouches(engine.history, policies[index].Index(), storeOk);
      assert policies[index].Index() in PolicyPositions(policies);
      ghost var h, position := engine.history, policies[index].Index();
      var ok := policies[index].Cancel(storeOk);
      Wider(h, engine.history, position, PolicyPositions(policies));
    }

    method ReleaseOtherPolicy(index: nat)
      requires Valid() && index < |policies|
      modifies engine, policies
      ensures Valid() && engine.issued == old(engine.issued)
      ensures Same(old(engine.history), engine.history, PolicyPositions(policies))
    {
      hide engine.Valid, guard.Valid, Admission.Next;
      CloseTouches(engine.history, policies[index].Index(), true);
      assert policies[index].Index() in PolicyPositions(policies);
      ghost var h, position := engine.history, policies[index].Index();
      policies[index].Release();
      Wider(h, engine.history, position, PolicyPositions(policies));
    }

    method AdmitOther(settings: Budget.Settings, at: int, agent: string, estimate: Budget.Estimate, world: Money.World)
      requires Valid() && Budget.ValidSettings(settings) && at >= 0 && guard.calendar.local(Budget.Daily, at) != 0
      modifies this`budgets, guard, guard.store
      ensures Valid() && old(guard.issued) <= guard.issued && old(budgets) <= budgets
      ensures forall i :: |old(budgets)| <= i < |budgets| ==> fresh(budgets[i])
      ensures SameLog(old(guard.log), guard.log, BudgetPositions(budgets))
    {
      hide engine.Valid, guard.Valid, Budget.Admission, Money.Undisturbed, Money.CalmWorld;
      OneEntryPerGrant(guard);
      var verdict, reservation := guard.Admit(settings, at, agent, estimate, world);
      if reservation != null {
        LastHolds(guard, reservation);
        budgets := budgets + [reservation];
        assert budgets[|budgets| - 1].index as int in BudgetPositions(budgets);
      }
    }

    method SettleOther(index: nat, ts: Option<int>, owner: string, cost: real, unsafe: bool, insertOk: bool, waiting: Money.Writes)
      requires Valid() && index < |budgets|
      modifies guard, guard.store, budgets
      ensures Valid() && guard.issued == old(guard.issued)
      ensures SameLog(old(guard.log), guard.log, BudgetPositions(budgets))
    {
      hide engine.Valid, guard.Valid;
      assert budgets[index].index as int in BudgetPositions(budgets);
      var ok := budgets[index].Settle(ts, owner, cost, unsafe, insertOk, waiting);
    }

    method ReleaseOtherBudget(index: nat)
      requires Valid() && index < |budgets|
      modifies guard, budgets
      ensures Valid() && guard.issued == old(guard.issued)
      ensures SameLog(old(guard.log), guard.log, BudgetPositions(budgets))
    {
      hide engine.Valid, guard.Valid;
      assert budgets[index].index as int in BudgetPositions(budgets);
      budgets[index].Release();
    }

    method WriteOther(writes: Money.Writes)
      requires Valid()
      modifies guard, guard.store
      ensures Valid() && guard.issued == old(guard.issued) && guard.log == old(guard.log)
    {
      hide engine.Valid, guard.Valid;
      guard.Intrude(writes);
    }

    method One(act: Act)
      requires Valid() && Possible(act, guard.calendar)
      modifies this, engine, engine.store, guard, guard.store, policies, budgets
      ensures Valid() && old(engine.issued) <= engine.issued && old(guard.issued) <= guard.issued
      ensures old(policies) <= policies && old(budgets) <= budgets
      ensures forall i :: |old(policies)| <= i < |policies| ==> fresh(policies[i])
      ensures forall i :: |old(budgets)| <= i < |budgets| ==> fresh(budgets[i])
      ensures Same(old(engine.history), engine.history, PolicyPositions(policies))
      ensures SameLog(old(guard.log), guard.log, BudgetPositions(budgets))
    {
      hide engine.Valid, guard.Valid, Holding;
      match act
      case Prepare(now, context, policy, storeOk) =>
        PrepareOther(now, context, policy, storeOk);
      case Commit(index, storeOk) =>
        if index < |policies| { CommitOther(index, storeOk); }
      case Cancel(index, storeOk) =>
        if index < |policies| { CancelOther(index, storeOk); }
      case ReleasePolicy(index) =>
        if index < |policies| { ReleaseOtherPolicy(index); }
      case Admit(settings, at, agent, estimate, world) =>
        AdmitOther(settings, at, agent, estimate, world);
      case Settle(index, ts, owner, cost, unsafe, insertOk, waiting) =>
        if index < |budgets| { SettleOther(index, ts, owner, cost, unsafe, insertOk, waiting); }
      case ReleaseBudget(index) =>
        if index < |budgets| { ReleaseOtherBudget(index); }
      case Write(writes) =>
        WriteOther(writes);
    }

    /** Any number of calls by other requests. Whatever they add is at their own positions. */
    method Meanwhile(acts: seq<Act>)
      requires Valid() && forall i :: 0 <= i < |acts| ==> Possible(acts[i], guard.calendar)
      modifies this, engine, engine.store, guard, guard.store, policies, budgets
      ensures Valid() && old(engine.issued) <= engine.issued && old(guard.issued) <= guard.issued
      ensures old(policies) <= policies && old(budgets) <= budgets
      ensures forall i :: |old(policies)| <= i < |policies| ==> fresh(policies[i])
      ensures forall i :: |old(budgets)| <= i < |budgets| ==> fresh(budgets[i])
      ensures Same(old(engine.history), engine.history, PolicyPositions(policies))
      ensures SameLog(old(guard.log), guard.log, BudgetPositions(budgets))
      ensures acts == [] ==> engine.history == old(engine.history) && Sight(guard) == old(Sight(guard))
    {
      hide Valid, Same, SameLog, Possible, PolicyPositions, BudgetPositions;
      NothingTouched(engine.history, guard.log, PolicyPositions(policies), BudgetPositions(budgets));
      for n := 0 to |acts|
        invariant Valid() && old(engine.issued) <= engine.issued && old(guard.issued) <= guard.issued
        invariant old(policies) <= policies && old(budgets) <= budgets
        invariant forall i :: |old(policies)| <= i < |policies| ==> fresh(policies[i])
        invariant forall i :: |old(budgets)| <= i < |budgets| ==> fresh(budgets[i])
        invariant Same(old(engine.history), engine.history, PolicyPositions(policies))
        invariant SameLog(old(guard.log), guard.log, BudgetPositions(budgets))
        invariant n == 0 ==> engine.history == old(engine.history) && Sight(guard) == old(Sight(guard))
      {
        ghost var h, log, held, owned := engine.history, guard.log, policies, budgets;
        One(acts[n]);
        PositionsGrow(held, policies, owned, budgets);
        SameAgain(old(engine.history), h, engine.history, PolicyPositions(held), PolicyPositions(policies));
        SameLogAgain(old(guard.log), log, guard.log, BudgetPositions(owned), BudgetPositions(budgets));
      }
    }

    /** A reservation the others do not hold is at none of their positions. */
    lemma Apart(mine: Policy.Reservation)
      requires Valid() && mine.engine == engine && mine.Issued() && mine !in policies
      ensures mine.Index() !in PolicyPositions(policies)
    {
      hide engine.Valid, guard.Valid;
    }

    lemma ApartBudget(mine: Money.Reservation)
      requires Valid() && mine.guard == guard && mine.Issued() && mine !in budgets
      ensures mine.index as int !in BudgetPositions(budgets)
    {
      hide engine.Valid, guard.Valid;
    }
  }

  lemma PositionsGrow(held: seq<Policy.Reservation>, policies: seq<Policy.Reservation>, owned: seq<Money.Reservation>, budgets: seq<Money.Reservation>)
    requires held <= policies && owned <= budgets
    ensures PolicyPositions(held) <= PolicyPositions(policies) && BudgetPositions(owned) <= BudgetPositions(budgets)
  {
    forall p | p in PolicyPositions(held) ensures p in PolicyPositions(policies) {
      var i :| 0 <= i < |held| && held[i].Index() == p;
      assert policies[i].Index() == p;
    }
    forall p | p in BudgetPositions(owned) ensures p in BudgetPositions(budgets) {
      var i :| 0 <= i < |owned| && owned[i].index as int == p;
      assert budgets[i].index as int == p;
    }
  }

  lemma Wider(a: Admission.History, b: Admission.History, position: int, many: set<int>)
    requires OnlyAt(a, b, position) && position in many
    ensures Same(a, b, many)
  {
  }

  lemma NothingTouched(h: Admission.History, log: Safety.Log, touched: set<int>, owned: set<int>)
    ensures Same(h, h, touched) && SameLog(log, log, owned)
  {
  }

  lemma SameAgain(a: Admission.History, b: Admission.History, c: Admission.History, few: set<int>, many: set<int>)
    requires Same(a, b, few) && Same(b, c, many) && few <= many
    ensures Same(a, c, many)
  {
  }

  lemma SameLogAgain(a: Safety.Log, b: Safety.Log, c: Safety.Log, few: set<int>, many: set<int>)
    requires SameLog(a, b, few) && SameLog(b, c, many) && few <= many
    ensures SameLog(a, c, many)
  {
  }

  lemma PrepareTouches(h: Admission.History, now: int, context: PolicyTypes.Context, policy: Option<PolicyTypes.Policy>, storeOk: bool)
    requires policy.Some? ==> PolicyTypes.ValidPolicy(policy.value)
    ensures h <= Admission.Next(h, Admission.Step.Prepare(now, context, policy, storeOk))
  {
    hide Admission.Admits, Admission.NewEntry;
  }

  lemma CloseTouches(h: Admission.History, index: int, storeOk: bool)
    requires index >= 0
    ensures OnlyAt(h, Admission.Next(h, Admission.Step.Commit(index, storeOk)), index)
    ensures OnlyAt(h, Admission.Next(h, Admission.Step.Cancel(index)), index)
    ensures OnlyAt(h, Admission.Next(h, Admission.Step.Release(index)), index)
  {
  }

  lemma LastIsIssued(engine: Policy.Engine, r: Policy.Reservation)
    requires engine.Valid() && engine.issued != [] && engine.issued[|engine.issued| - 1] == r
    ensures r.engine == engine && r.Issued() && r.Index() == |engine.history| - 1
  {
    hide Policy.Agrees;
  }

  lemma OneEntryEach(engine: Policy.Engine)
    requires engine.Valid()
    ensures |engine.history| == engine.offset + |engine.issued|
  {
    hide Policy.Agrees;
  }

  lemma LastHolds(guard: Money.Guard, r: Money.Reservation)
    requires guard.Valid() && guard.issued != [] && guard.issued[|guard.issued| - 1] == r
    ensures r.guard == guard && r.Issued() && r.index == |guard.log| - 1
  {
    hide guard.Books, guard.CacheKept;
  }

  lemma OneEntryPerGrant(guard: Money.Guard)
    requires guard.Valid()
    ensures |guard.log| == |guard.issued|
  {
    hide guard.Books, guard.CacheKept;
  }
}
