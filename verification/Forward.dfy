/** Forwarding one request through both guards while other requests come and go: on every way out
    the policy reservations are closed, the budget reservation is given back, and only a request
    that both guards let through has been counted, as what it was forwarded as. */
module Forward {
  import opened Common
  import PolicyTypes
  import Admission
  import Policy = PolicyEngine
  import Budget
  import Money = BudgetGuard
  import BudgetBooks
  import Safety = BudgetSafety
  import opened Traffic
  import opened Downshift

  type Policies = nat -> Option<PolicyTypes.Policy>

  /** An open gate holds no reservation when no policy is active. */
  datatype Gate = Unavailable | Shut | Open(reservation: Policy.Reservation?)

  function Entered(policy: Option<PolicyTypes.Policy>, context: PolicyTypes.Context, now: int): Admission.Entry {
    if policy.Some? then Admission.NewEntry(policy.value, context, now)
    else Admission.Entry(now, Admission.Usage(0, 0, 0, 0, 0), {}, {}, Admission.Prepared)
  }

  ghost predicate IsAt(r: Policy.Reservation?, i: int) { r != null && r.Index() == i }

  /** Everything the two guards and the network answer along the way, and what other requests do in
      between. */
  datatype Outside = Outside(
    acts: nat -> seq<Act>,
    policies: nat -> Option<PolicyTypes.Policy>,
    storeOk: nat -> bool,
    settings: nat -> Budget.Settings,
    worlds: nat -> Money.World,
    planOk: bool,
    boundaryOk: bool,
    requestBuilt: bool,
    owner: string,
    cost: real,
    unsafe: bool,
    insertOk: bool,
    waiting: Money.Writes)

  ghost predicate Proper(o: Outside, calendar: Budget.Calendar) {
    (forall n: nat, i :: 0 <= i < |o.acts(n)| ==> Possible(o.acts(n)[i], calendar))
    && (forall n: nat :: o.policies(n).Some? ==> PolicyTypes.ValidPolicy(o.policies(n).value))
    && forall n: nat :: Budget.ValidSettings(o.settings(n))
  }

  lemma ProperAt(o: Outside, calendar: Budget.Calendar, n: nat)
    requires Proper(o, calendar)
    ensures forall i :: 0 <= i < |o.acts(n)| ==> Possible(o.acts(n)[i], calendar)
    ensures o.policies(n).Some? ==> PolicyTypes.ValidPolicy(o.policies(n).value)
    ensures Budget.ValidSettings(o.settings(n))
  {
    hide Possible, PolicyTypes.ValidPolicy, Budget.ValidSettings;
  }

  class Proxy {
    const engine: Policy.Engine
    const guard: Money.Guard
    const others: Others

    ghost predicate Valid()
      reads this, engine, engine.store, engine.issued, guard, guard.store, guard.issued, others, others.policies, others.budgets
    {
      others.engine == engine && others.guard == guard && others.Valid()
    }

    constructor (engine: Policy.Engine, guard: Money.Guard, others: Others)
      requires others.engine == engine && others.guard == guard && others.Valid()
      ensures Valid() && this.engine == engine && this.guard == guard && this.others == others
    {
      this.engine, this.guard, this.others := engine, guard, others;
    }

    /** A reservation of this request's own stands at entry `e`. */
    ghost predicate At(r: Policy.Reservation?, e: Admission.Entry)
      reads this, engine, others
    {
      r != null ==> r.engine == engine && r.Issued() && r !in others.policies
                    && 0 <= r.Index() < |engine.history| && engine.history[r.Index()] == e
    }

    ghost predicate HoldsAt(b: Money.Reservation?, e: Safety.Entry)
      reads this, guard, others
    {
      b != null ==> b.guard == guard && b.Issued() && b !in others.budgets
                    && b.index < |guard.log| && guard.log[b.index] == e
    }

    /** Since `h`, this request has added at most the entries of `a` and `b` and changed no others;
        anything else that is new or different belongs to other requests. */
    ghost predicate Mine(h: Admission.History, a: Policy.Reservation?, b: Policy.Reservation?)
      reads this, engine, others
    {
      |h| <= |engine.history| && (a != null ==> a.Index() >= |h|) && (b != null ==> b.Index() >= |h|)
      && forall i :: 0 <= i < |engine.history| && i !in PolicyPositions(others.policies) && !IsAt(a, i) && !IsAt(b, i) ==>
           i < |h| && engine.history[i] == h[i]
    }

    ghost predicate MineMoney(log: Safety.Log, b: Money.Reservation?)
      reads this, guard, others
    {
      |log| <= |guard.log| && (b != null ==> b.index >= |log|)
      && forall i :: 0 <= i < |guard.log| && i !in BudgetPositions(others.budgets) && !(b != null && b.index == i) ==>
           i < |log| && guard.log[i] == log[i]
    }

    /** Other requests act; this one's reservations stay where they are, and stay all it has. */
    method Gap(acts: seq<Act>, ghost h: Admission.History, ghost log: Safety.Log, ghost source: Policy.Reservation?, ghost s: Admission.Entry,
               ghost target: Policy.Reservation?, ghost t: Admission.Entry, ghost money: Money.Reservation?, ghost m: Safety.Entry)
      requires Valid() && forall i :: 0 <= i < |acts| ==> Possible(acts[i], guard.calendar)
      requires At(source, s) && At(target, t) && HoldsAt(money, m) && Mine(h, source, target) && MineMoney(log, money)
      modifies engine, engine.store, guard, guard.store, others, others.policies, others.budgets
      ensures Valid() && At(source, s) && At(target, t) && HoldsAt(money, m) && Mine(h, source, target) && MineMoney(log, money)
      ensures acts == [] ==> engine.history == old(engine.history) && Sight(guard) == old(Sight(guard))
      ensures forall i :: |old(others.policies)| <= i < |others.policies| ==> fresh(others.policies[i])
      ensures forall i :: |old(others.budgets)| <= i < |others.budgets| ==> fresh(others.budgets[i])
      ensures old(others.policies) <= others.policies && old(others.budgets) <= others.budgets
    {
      hide engine.Valid, guard.Valid, Same, SameLog, PolicyPositions, BudgetPositions;
      ghost var was, wasLog, held, owned := engine.history, guard.log, others.policies, others.budgets;
      others.Meanwhile(acts);
      Unmoved(was, source, s);
      Unmoved(was, target, t);
      UnmovedBudget(wasLog, money, m);
      PositionsGrow(held, others.policies, owned, others.budgets);
      MineAcross(h, was, engine.history, PolicyPositions(held), PolicyPositions(others.policies), source, target);
      MineMoneyAcross(log, wasLog, guard.log, BudgetPositions(owned), BudgetPositions(others.budgets), money);
    }

    lemma Unmoved(h: Admission.History, r: Policy.Reservation?, e: Admission.Entry)
      requires Valid() && Same(h, engine.history, PolicyPositions(others.policies))
      requires r != null ==> r.engine == engine && r.Issued() && r !in others.policies
      requires r != null ==> 0 <= r.Index() < |h| && h[r.Index()] == e
      ensures At(r, e)
    {
      hide engine.Valid, guard.Valid, PolicyPositions;
      if r != null {
        others.Apart(r);
      }
    }

    lemma UnmovedBudget(log: Safety.Log, b: Money.Reservation?, e: Safety.Entry)
      requires Valid() && SameLog(log, guard.log, BudgetPositions(others.budgets))
      requires b != null ==> b.guard == guard && b.Issued() && b !in others.budgets
      requires b != null ==> b.index < |log| && log[b.index] == e
      ensures HoldsAt(b, e)
    {
      hide engine.Valid, guard.Valid, BudgetPositions;
      if b != null {
        others.ApartBudget(b);
      }
    }

    // ----- the policy guard -----

    /** Evaluates one form of the request; an open gate stands for a new entry, or for none when no
        policy is active. */
    method OpenGate(now: int, context: PolicyTypes.Context, policy: Option<PolicyTypes.Policy>, storeOk: bool,
                    ghost h: Admission.History, ghost kept: Policy.Reservation?, ghost k: Admission.Entry) returns (gate: Gate)
      requires Valid() && (policy.Some? ==> PolicyTypes.ValidPolicy(policy.value)) && At(kept, k) && Mine(h, kept, null)
      modifies engine, engine.store
      ensures Valid() && At(kept, k) && Mine(h, kept, if gate.Open? then gate.reservation else null)
      ensures gate.Open? <==> Consents(policy, context, now, storeOk, old(engine.history))
      ensures gate.Open? && gate.reservation == null ==> policy.None?
      ensures gate.Open? ==> At(gate.reservation, Entered(policy, context, now)) && (gate.reservation != null ==> fresh(gate.reservation))
      ensures gate.Open? ==> if policy.None? then gate.reservation == null && engine.history == old(engine.history)
                             else gate.reservation != null && gate.reservation.Index() == |old(engine.history)|
                                  && engine.history == old(engine.history) + [Entered(policy, context, now)]
    {
      hide engine.Valid, guard.Valid, Admission.Decide, Admission.Leaves, PolicyTypes.ValidPolicy, Admission.NewEntry, Admission.Admits, Policy.PreparedRecord, PolicyPositions;
      OneEntryEach(engine);
      var result := engine.Prepare(now, context, policy, storeOk);
      OneEntryEach(engine);
      match result
      case Failed => return Unavailable;
      case DeniedBy(decision) => return Shut;
      case NoActivePolicy => return Open(null);
      case AdmittedWith(reservation, decision) =>
        LastIsIssued(engine, reservation);
        return Open(reservation);
    }

    /** Cancels a prepared reservation; it is closed whether or not the store takes the record. */
    method CloseGate(r: Policy.Reservation?, ghost e: Admission.Entry, storeOk: bool,
                     ghost h: Admission.History, ghost kept: Policy.Reservation?, ghost k: Admission.Entry) returns (ok: bool)
      requires Valid() && At(r, e) && e.status == Admission.Prepared && At(kept, k) && (kept != null ==> kept != r) && Mine(h, r, kept)
      modifies r, engine, engine.store
      ensures Valid() && At(r, e.(status := Admission.Dropped)) && At(kept, k) && Mine(h, r, kept)
      ensures ok <==> r == null || storeOk
      ensures engine.history == Left(old(engine.history), r)
    {
      hide engine.Valid, guard.Valid;
      if r == null {
        return true;
      }
      if kept != null { Distinct(r, kept); }
      StateOf(r, e);
      ok := r.Cancel(storeOk);
    }

    /** Commits a prepared reservation: counted and in flight, or closed when the store fails. */
    method CommitGate(r: Policy.Reservation?, ghost e: Admission.Entry, storeOk: bool,
                      ghost h: Admission.History, ghost kept: Policy.Reservation?, ghost k: Admission.Entry) returns (ok: bool)
      requires Valid() && At(r, e) && e.status == Admission.Prepared && At(kept, k) && (kept != null ==> kept != r) && Mine(h, r, kept)
      modifies r, engine, engine.store
      ensures Valid() && At(r, e.(status := if ok then Admission.Committed else Admission.Dropped)) && At(kept, k) && Mine(h, r, kept)
      ensures ok <==> r == null || storeOk
    {
      hide engine.Valid, guard.Valid;
      if r == null {
        return true;
      }
      if kept != null { Distinct(r, kept); }
      StateOf(r, e);
      ok := r.Commit(storeOk);
    }

    /** The deferred release of a committed reservation. */
    method ReleaseGate(r: Policy.Reservation?, ghost e: Admission.Entry,
                       ghost h: Admission.History, ghost kept: Policy.Reservation?, ghost k: Admission.Entry)
      requires Valid() && At(r, e) && e.status == Admission.Committed && At(kept, k) && (kept != null ==> kept != r) && Mine(h, r, kept)
      modifies r, engine
      ensures Valid() && At(r, e.(status := Admission.Done)) && At(kept, k) && Mine(h, r, kept)
    {
      hide engine.Valid, guard.Valid;
      if r == null {
        return;
      }
      if kept != null { Distinct(r, kept); }
      r.Release();
    }

    lemma Distinct(a: Policy.Reservation, b: Policy.Reservation)
      requires a.engine == engine && b.engine == engine && a.Issued() && b.Issued() && a != b
      ensures a.Index() != b.Index()
    {
    }

    lemma StateOf(r: Policy.Reservation, e: Admission.Entry)
      requires engine.Valid() && At(r, e)
      ensures (r.state == 0 <==> e.status == Admission.Prepared) && (r.state == 1 <==> e.status == Admission.Committed)
    {
      hide Policy.Agrees, Policy.Represents, Policy.NoDuplicates, Policy.KeySet;
      assert engine.issued[r.pendingID - 1].Tracks(engine.history[engine.offset + (r.pendingID - 1)]);
    }

    /** Leaves the source and asks again as the target. */
    method Switch(source: Policy.Reservation?, ghost s: Admission.Entry, now: int, context: PolicyTypes.Context,
                  policy: Option<PolicyTypes.Policy>, cancelOk: bool, prepareOk: bool, acts: seq<Act>, more: seq<Act>,
                  ghost h: Admission.History, ghost log: Safety.Log) returns (gate: Gate)
      requires Valid() && At(source, s) && s.status == Admission.Prepared && Mine(h, source, null) && MineMoney(log, null)
      requires policy.Some? ==> PolicyTypes.ValidPolicy(policy.value)
      requires forall i :: 0 <= i < |acts| ==> Possible(acts[i], guard.calendar)
      requires forall i :: 0 <= i < |more| ==> Possible(more[i], guard.calendar)
      modifies source, engine, engine.store, guard, guard.store, others, others.policies, others.budgets
      ensures Valid() && At(source, s.(status := Admission.Dropped)) && Mine(h, source, if gate.Open? then gate.reservation else null) && MineMoney(log, null)
      ensures gate.Open? && gate.reservation == null ==> policy.None?
      ensures gate.Open? ==> At(gate.reservation, Entered(policy, context, now)) && (gate.reservation != null ==> fresh(gate.reservation))
      ensures forall i :: |old(others.policies)| <= i < |others.policies| ==> fresh(others.policies[i])
      ensures forall i :: |old(others.budgets)| <= i < |others.budgets| ==> fresh(others.budgets[i])
      ensures old(others.policies) <= others.policies && old(others.budgets) <= others.budgets
      ensures acts == [] ==>
                (gate.Open? <==> (source == null || cancelOk) && Consents(policy, context, now, prepareOk, Left(old(engine.history), source)))
      ensures acts == [] && more == [] ==> Sight(guard) == old(Sight(guard))
    {
      hide Valid, At, HoldsAt, Mine, MineMoney, Possible, Entered, PolicyTypes.ValidPolicy, Consents, Left;
      NothingHeld(s, NoMoney());
      var closed := CloseGate(source, s, cancelOk, h, null, s);
      if !closed {
        return Unavailable;
      }
      NothingHeld(s, NoMoney());
      Gap(acts, h, log, source, s.(status := Admission.Dropped), null, s, null, NoMoney());
      gate := OpenGate(now, context, policy, prepareOk, h, source, s.(status := Admission.Dropped));
      if gate.Open? {
        NothingHeld(s, NoMoney());
        Gap(more, h, log, source, s.(status := Admission.Dropped), gate.reservation, Entered(policy, context, now), null, NoMoney());
      }
    }

    lemma NothingHeld(e: Admission.Entry, m: Safety.Entry)
      ensures At(null, e) && HoldsAt(null, m)
    {
    }

    lemma NothingMine()
      ensures Mine(engine.history, null, null) && MineMoney(guard.log, null)
    {
    }

    lemma MineSwaps(h: Admission.History, a: Policy.Reservation?, b: Policy.Reservation?)
      requires Mine(h, a, b)
      ensures Mine(h, b, a)
    {
      hide IsAt;
    }

    // ----- the budget guard -----

    method AdmitMoney(settings: Budget.Settings, now: int, agent: string, estimate: Budget.Estimate, world: Money.World, ghost log: Safety.Log)
      returns (verdict: Option<Budget.Verdict>, money: Money.Reservation?, ghost m: Safety.Entry)
      requires Valid() && Budget.ValidSettings(settings) && now >= 0 && guard.calendar.local(Budget.Daily, now) != 0
      requires MineMoney(log, null)
      modifies guard, guard.store
      ensures Valid() && MineMoney(log, money)
      ensures verdict.Some? && verdict.value.Granted? <==> money != null
      ensures HoldsAt(money, m) && m.status == Safety.Open
      ensures money != null ==> fresh(money) && m == Safety.Entry(now, agent, verdict.value.amount, Safety.Open)
      ensures Sure(settings, now, estimate, world, old(Sight(guard))) ==>
                verdict == Some(Answer(settings, guard.calendar, now, agent, estimate, old(Sight(guard))))
      ensures Sure(settings, now, estimate, world, old(Sight(guard))) && BudgetBooks.Follows(guard.calendar, old(Sight(guard)).last, now) ==>
                (verdict.Some? && verdict.value.Refused? && Retryable(verdict.value.denial) ==> SeenAgain(old(Sight(guard)), Sight(guard)))
    {
      hide engine.Valid, guard.Valid, Budget.Admission, BudgetBooks.WholeBaseline, Money.CalmWorld, Budget.ValidSettings, BudgetPositions;
      hide BudgetBooks.Follows, BudgetBooks.Taken;
      OneEntryPerGrant(guard);
      verdict, money := guard.Admit(settings, now, agent, estimate, world);
      m := NoMoney().(status := Safety.Open);
      if money != null {
        LastHolds(guard, money);
        m := Safety.Entry(now, agent, verdict.value.amount, Safety.Open);
      }
    }

    method SettleMoney(money: Money.Reservation, ghost m: Safety.Entry, ts: int, owner: string, cost: real, unsafe: bool,
                       insertOk: bool, waiting: Money.Writes, ghost log: Safety.Log) returns (ok: bool)
      requires Valid() && HoldsAt(money, m) && m.status == Safety.Open && MineMoney(log, money)
      modifies money, guard, guard.store
      ensures Valid() && HoldsAt(money, if ok then m.(status := Safety.Settled(cost, unsafe)) else m) && MineMoney(log, money)
      ensures ok <==> owner == m.agent && cost >= 0.0 && insertOk
    {
      hide engine.Valid, guard.Valid, BudgetPositions;
      OpenIsNotDone(money, m);
      ok := money.Settle(Some(ts), owner, cost, unsafe, insertOk, waiting);
    }

    /** The deferred release: frees what was not settled. */
    method ReleaseMoney(money: Money.Reservation, ghost m: Safety.Entry, ghost log: Safety.Log)
      requires Valid() && HoldsAt(money, m) && MineMoney(log, money)
      modifies money, guard
      ensures Valid() && money.done && HoldsAt(money, if m.status == Safety.Open then m.(status := Safety.Freed) else m)
      ensures MineMoney(log, money)
    {
      hide engine.Valid, guard.Valid, BudgetPositions;
      OpenIsNotDone(money, m);
      money.Release();
    }

    lemma OpenIsNotDone(money: Money.Reservation, m: Safety.Entry)
      requires Valid() && HoldsAt(money, m)
      ensures (money.done <==> m.status != Safety.Open) && money.agent == m.agent
    {
      hide engine.Valid, guard.Books, guard.CacheKept;
      assert guard.issued[money.index].Tracks(guard.log[money.index], guard.calendar);
    }

    // ----- one request -----

    /** From the budget's verdict to the end. The request is cleared exactly when the budget granted
        it and its policy reservation could be committed; either way nothing of it stays open. */
    method Conclude(now: int, plan: Plan, ghost h: Admission.History, ghost log: Safety.Log,
                    current: Policy.Reservation?, ghost c: Admission.Entry, ghost kept: Policy.Reservation?, ghost k: Admission.Entry,
                    denied: bool, money: Money.Reservation?, ghost m: Safety.Entry, o: Outside) returns (cleared: Option<Form>, settled: bool)
      requires Valid() && plan.Valid() && Proper(o, guard.calendar) && Mine(h, current, kept) && MineMoney(log, money)
      requires At(current, c) && c.status == Admission.Prepared && At(kept, k) && (kept != null ==> kept != current)
      requires HoldsAt(money, m) && m.status == Safety.Open
      modifies current, money, plan, engine, engine.store, guard, guard.store, others, others.policies, others.budgets
      ensures Valid() && plan.Valid() && Mine(h, current, kept) && MineMoney(log, money)
      ensures settled <==> cleared.Some? && o.requestBuilt && o.owner == m.agent && o.cost >= 0.0 && o.insertOk
      ensures cleared.Some? <==> money != null && (current == null || o.storeOk(3))
      ensures cleared.Some? ==> cleared.value == old(plan.chosen) && plan.decision == old(plan.decision)
      ensures money == null && denied ==> plan.chosen == plan.requested
      ensures At(current, c.(status := if cleared.Some? then Admission.Done else Admission.Dropped)) && At(kept, k)
      ensures money != null ==>
                money.done && HoldsAt(money, m.(status := if settled then Safety.Settled(o.cost, o.unsafe) else Safety.Freed))
    {
      hide *;
      ProperAt(o, guard.calendar, 3);
      ProperAt(o, guard.calendar, 4);
      settled := false;
      if money == null {
        if denied {
          plan.CancelUnforwarded();
        }
        var closed := CloseGate(current, c, o.storeOk(3), h, kept, k);
        return None, false;
      }
      var committed := CommitGate(current, c, o.storeOk(3), h, kept, k);
      if !committed {
        ReleaseMoney(money, m, log);
        return None, false;
      }
      Gap(o.acts(3), h, log, current, c.(status := Admission.Committed), kept, k, money, m);
      if o.requestBuilt {
        settled := SettleMoney(money, m, now, o.owner, o.cost, o.unsafe, o.insertOk, o.waiting, log);
      }
      ghost var n := if settled then m.(status := Safety.Settled(o.cost, o.unsafe)) else m;
      Gap(o.acts(4), h, log, current, c.(status := Admission.Committed), kept, k, money, n);
      ReleaseGate(current, c.(status := Admission.Committed), h, kept, k);
      ReleaseMoney(money, n, log);
      return Some(plan.chosen), settled;
    }

    /** Where a finished request has left the two guards. All it added since `h` and `log` is the
        receipt's: closed policy entries, counted once if it was cleared and not at all otherwise,
        and a budget entry that is no longer open and is settled only if something was sent. */
    ghost predicate Finished(receipt: Receipt, h: Admission.History, log: Safety.Log, s: Admission.Entry, t: Admission.Entry, m: Safety.Entry)
      reads this, engine, guard, others, receipt.money
    {
      Mine(h, receipt.source, receipt.target) && MineMoney(log, receipt.money)
      && At(receipt.source, s.(status := if receipt.cleared.Some? && !receipt.switched then Admission.Done else Admission.Dropped))
      && At(receipt.target, t.(status := if receipt.cleared.Some? && receipt.switched then Admission.Done else Admission.Dropped))
      && (receipt.cleared.Some? ==> receipt.money != null)
      && (receipt.money != null ==>
            receipt.money.done && HoldsAt(receipt.money, m) && m.status != Safety.Open
            && (m.status.Settled? ==> receipt.sent))
      && (receipt.sent ==> receipt.cleared.Some?)
    }

    /** Going out as the target: the source's reservation is left first. */
    method RouteTarget(now: int, agent: string, plan: Plan, source: Policy.Reservation?, ghost s: Admission.Entry,
                       ghost h: Admission.History, ghost log: Safety.Log,
                       contextOf: Form -> PolicyTypes.Context, o: Outside, turn: nat) returns (receipt: Receipt, ghost m: Safety.Entry)
      requires Valid() && plan.Valid() && Proper(o, guard.calendar) && now >= 0 && guard.calendar.local(Budget.Daily, now) != 0
      requires At(source, s) && s.status == Admission.Prepared && plan.decision.action == Shift && Mine(h, source, null) && MineMoney(log, null)
      modifies source, plan, engine, engine.store, guard, guard.store, others, others.policies, others.budgets
      ensures Valid() && plan.Valid() && receipt.source == source && receipt.switched
      ensures Finished(receipt, h, log, s, Entered(o.policies(1), contextOf(TargetOf(plan)), now), m)
      ensures Honest(receipt, o, now, agent, m) && (receipt.target != null ==> fresh(receipt.target)) && (receipt.money != null ==> fresh(receipt.money))
      ensures receipt.cleared.Some? ==> receipt.cleared.value == TargetOf(plan) == plan.chosen && plan.decision.action == Shift
      ensures o.acts(1) == [] && o.acts(2) == [] && Sure(o.settings(turn), now, TargetOf(plan).info.admission, o.worlds(turn), old(Sight(guard))) ==>
                Moved((source == null || o.storeOk(1))
                      && Consents(o.policies(1), contextOf(TargetOf(plan)), now, o.storeOk(2), Left(old(engine.history), source)),
                      Answer(o.settings(turn), guard.calendar, now, agent, TargetOf(plan).info.admission, old(Sight(guard))),
                      o.storeOk(3), TargetOf(plan), receipt, m)
    {
      hide *;
      ProperAt(o, guard.calendar, 1);
      ProperAt(o, guard.calendar, 2);
      ProperAt(o, guard.calendar, turn);
      Shifted(plan);
      ghost var t := Entered(o.policies(1), contextOf(TargetOf(plan)), now);
      EnteredIsPrepared(o.policies(1), contextOf(TargetOf(plan)), now);
      m := NoMoney();
      var gate := Switch(source, s, now, contextOf(plan.chosen), o.policies(1), o.storeOk(1), o.storeOk(2), o.acts(1), o.acts(2), h, log);
      if gate.Open? {
        receipt, m := SpendAsTarget(now, agent, plan, source, s, gate.reservation, t, h, log, o, turn);
        return;
      }
      if gate.Shut? {
        plan.CancelSelected();
      }
      receipt := Receipt(source, null, null, None, true, false);
      NothingSpent(receipt, h, log, s, t, o, now, agent);
      NotMoved(Answer(o.settings(turn), guard.calendar, now, agent, TargetOf(plan).info.admission, old(Sight(guard))), o.storeOk(3), TargetOf(plan), receipt, m);
    }

    lemma NotMoved(verdict: Budget.Verdict, committed: bool, target: Form, receipt: Receipt, m: Safety.Entry)
      requires receipt.switched && receipt.money == null && receipt.cleared.None?
      ensures Moved(false, verdict, committed, target, receipt, m)
    {
    }

    /** The receipt of a request that stopped before the budget was asked. */
    lemma NothingSpent(receipt: Receipt, h: Admission.History, log: Safety.Log, s: Admission.Entry, t: Admission.Entry, o: Outside, now: int, agent: string)
      requires receipt == Receipt(receipt.source, null, null, None, receipt.switched, false)
      requires At(receipt.source, s.(status := Admission.Dropped)) && Mine(h, receipt.source, null) && MineMoney(log, null)
      ensures Finished(receipt, h, log, s, t, NoMoney()) && Honest(receipt, o, now, agent, NoMoney())
    {
      hide Mine, MineMoney;
    }

    /** The budget's part of going out as the target. */
    method SpendAsTarget(now: int, agent: string, plan: Plan, source: Policy.Reservation?, ghost s: Admission.Entry,
                         target: Policy.Reservation?, ghost t: Admission.Entry, ghost h: Admission.History, ghost log: Safety.Log,
                         o: Outside, turn: nat) returns (receipt: Receipt, ghost m: Safety.Entry)
      requires Valid() && plan.Valid() && Proper(o, guard.calendar) && now >= 0 && guard.calendar.local(Budget.Daily, now) != 0
      requires At(source, s.(status := Admission.Dropped)) && (source != null ==> source != target) && plan.decision.action == Shift
      requires At(target, t) && t.status == Admission.Prepared && (target == null ==> o.policies(1).None?)
      requires Mine(h, source, target) && MineMoney(log, null)
      modifies target, plan, engine, engine.store, guard, guard.store, others, others.policies, others.budgets
      ensures Valid() && plan.Valid() && receipt.source == source && receipt.target == target && receipt.switched
      ensures Finished(receipt, h, log, s, t, m) && Honest(receipt, o, now, agent, m) && (receipt.money != null ==> fresh(receipt.money))
      ensures receipt.cleared.Some? ==> receipt.cleared.value == TargetOf(plan) == plan.chosen && plan.decision.action == Shift
      ensures Sure(o.settings(turn), now, TargetOf(plan).info.admission, o.worlds(turn), old(Sight(guard))) ==>
                Moved(true, Answer(o.settings(turn), guard.calendar, now, agent, TargetOf(plan).info.admission, old(Sight(guard))),
                      o.storeOk(3), TargetOf(plan), receipt, m)
    {
      hide Valid, At, HoldsAt, Mine, MineMoney, Possible, PolicyTypes.ValidPolicy, Budget.ValidSettings, Sure, Answer;
      var verdict, money;
      verdict, money, m := AdmitMoney(o.settings(turn), now, agent, plan.chosen.info.admission, o.worlds(turn), log);
      MineSwaps(h, source, target);
      var cleared, settled := Conclude(now, plan, h, log, target, t, source, s.(status := Admission.Dropped), verdict.Some?, money, m, o);
      MineSwaps(h, target, source);
      m := m.(status := if settled then Safety.Settled(o.cost, o.unsafe) else Safety.Freed);
      receipt := Receipt(source, target, money, cleared, true, cleared.Some? && o.requestBuilt);
    }

    lemma Shifted(plan: Plan)
      requires plan.Valid() && plan.decision.action == Shift
      ensures plan.chosen == TargetOf(plan)
    {
    }

    lemma Unshifted(plan: Plan)
      requires plan.Valid() && plan.decision.action != Shift
      ensures plan.chosen == plan.requested
    {
    }

    /** Turns to the target after a denial, unless the request may not cross to its route. */
    method Retry(plan: Plan, o: Outside) returns (shifted: bool)
      requires plan.Valid() && plan.decision.action != Shift
      modifies plan
      ensures plan.Valid() && (shifted <==> plan.decision.action == Shift)
      ensures shifted <==> Retries(plan.config, plan.rule, plan.live, plan.rewrite, o)
    {
      hide Usable;
      ShiftsExactly(plan.config, plan.rule, plan.live, plan.pct, true);
      shifted := plan.RetryAfterDenial();
      if shifted && !o.boundaryOk {
        plan.CancelSelected();
        shifted := false;
      }
    }

    /** Going out as the target after the denial. */
    method RouteAgain(now: int, agent: string, plan: Plan, source: Policy.Reservation?, ghost s: Admission.Entry,
                      ghost h: Admission.History, ghost log: Safety.Log, contextOf: Form -> PolicyTypes.Context, o: Outside,
                      ghost retries: bool, ghost verdict: Option<Budget.Verdict>, ghost seen: View) returns (receipt: Receipt, ghost m: Safety.Entry)
      requires Valid() && plan.Valid() && Proper(o, guard.calendar) && now >= 0 && guard.calendar.local(Budget.Daily, now) != 0
      requires At(source, s) && s.status == Admission.Prepared && plan.decision.action == Shift && Mine(h, source, null) && MineMoney(log, null)
      requires Denied(o, now, agent, guard.calendar, plan.requested, verdict, seen, Sight(guard)) && retries
      modifies source, plan, engine, engine.store, guard, guard.store, others, others.policies, others.budgets
      ensures Valid() && plan.Valid() && receipt.source == source && receipt.switched
      ensures Finished(receipt, h, log, s, Entered(o.policies(1), contextOf(TargetOf(plan)), now), m)
      ensures Honest(receipt, o, now, agent, m) && (receipt.target != null ==> fresh(receipt.target)) && (receipt.money != null ==> fresh(receipt.money))
      ensures receipt.cleared.Some? ==> receipt.cleared.value == TargetOf(plan) == plan.chosen && plan.decision.action == Shift
      ensures AskedFirst(o, now, agent, guard.calendar, retries, plan.requested, TargetOf(plan), contextOf, Left(old(engine.history), source), seen, receipt, m)
    {
      hide *;
      ghost var again, left := Sight(guard), Left(engine.history, source);
      receipt, m := RouteTarget(now, agent, plan, source, s, h, log, contextOf, o, 1);
      AskedAgain(o, now, agent, guard.calendar, retries, plan.requested, TargetOf(plan), contextOf, left, seen, again, verdict, receipt, m);
    }

    /** Going out as asked, or as the target when the budget refuses what was asked. */
    method RouteSource(now: int, agent: string, plan: Plan, source: Policy.Reservation?, ghost s: Admission.Entry,
                       ghost h: Admission.History, ghost log: Safety.Log,
                       contextOf: Form -> PolicyTypes.Context, o: Outside) returns (receipt: Receipt, ghost m: Safety.Entry)
      requires Valid() && plan.Valid() && Proper(o, guard.calendar) && now >= 0 && guard.calendar.local(Budget.Daily, now) != 0
      requires At(source, s) && s.status == Admission.Prepared && plan.decision.action != Shift && Mine(h, source, null) && MineMoney(log, null)
      modifies source, plan, engine, engine.store, guard, guard.store, others, others.policies, others.budgets
      ensures Valid() && plan.Valid() && receipt.source == source
      ensures Finished(receipt, h, log, s, Entered(o.policies(1), contextOf(TargetOf(plan)), now), m)
      ensures Honest(receipt, o, now, agent, m) && (receipt.target != null ==> fresh(receipt.target)) && (receipt.money != null ==> fresh(receipt.money))
      ensures receipt.cleared.Some? ==>
                receipt.cleared.value == plan.chosen && receipt.cleared.value == (if receipt.switched then TargetOf(plan) else plan.requested)
                && (receipt.switched <==> plan.decision.action == Shift)
      ensures AskedFirst(o, now, agent, guard.calendar, Retries(plan.config, plan.rule, plan.live, plan.rewrite, o), plan.requested, TargetOf(plan),
                         contextOf, Left(old(engine.history), source), old(Sight(guard)), receipt, m)
    {
      hide *;
      ProperAt(o, guard.calendar, 0);
      ProperAt(o, guard.calendar, 1);
      Unshifted(plan);
      ghost var retries := Retries(plan.config, plan.rule, plan.live, plan.rewrite, o);
      ghost var seen, left := Sight(guard), Left(engine.history, source);
      var verdict, money;
      verdict, money, m := AdmitMoney(o.settings(0), now, agent, plan.chosen.info.admission, o.worlds(0), log);
      var shifted := false;
      if verdict.Some? && verdict.value.Refused? && Retryable(verdict.value.denial) {
        shifted := Retry(plan, o);
      }
      if shifted {
        DeniedThen(o, now, agent, guard.calendar, plan.requested, verdict, seen, Sight(guard));
        receipt, m := RouteAgain(now, agent, plan, source, s, h, log, contextOf, o, retries, verdict, seen);
        return;
      }
      SettledFirst(o, now, agent, guard.calendar, retries, plan.requested, verdict, money, m, seen);
      receipt, m := SpendAsSource(now, agent, plan, source, s, h, log, contextOf, verdict.Some?, money, m, o, retries, left, verdict, seen);
    }

    /** The end of going out as asked, once the budget has answered. */
    method SpendAsSource(now: int, agent: string, plan: Plan, source: Policy.Reservation?, ghost s: Admission.Entry,
                         ghost h: Admission.History, ghost log: Safety.Log, contextOf: Form -> PolicyTypes.Context,
                         denied: bool, money: Money.Reservation?, ghost granted: Safety.Entry, o: Outside,
                         ghost retries: bool, ghost left: Admission.History, ghost verdict: Option<Budget.Verdict>, ghost seen: View)
      returns (receipt: Receipt, ghost m: Safety.Entry)
      requires Valid() && plan.Valid() && Proper(o, guard.calendar) && plan.decision.action != Shift
      requires At(source, s) && s.status == Admission.Prepared && Mine(h, source, null) && MineMoney(log, money)
      requires HoldsAt(money, granted) && granted.status == Safety.Open && (money != null ==> granted.ts == now && granted.agent == agent)
      requires Settled(o, now, agent, guard.calendar, retries, plan.requested, verdict, money, granted, seen)
      modifies source, money, plan, engine, engine.store, guard, guard.store, others, others.policies, others.budgets
      ensures Valid() && plan.Valid() && receipt.source == source && receipt.target == null && receipt.money == money && !receipt.switched
      ensures Finished(receipt, h, log, s, Entered(o.policies(1), contextOf(TargetOf(plan)), now), m) && Honest(receipt, o, now, agent, m)
      ensures receipt.cleared.Some? ==> receipt.cleared.value == plan.requested == plan.chosen && plan.decision.action != Shift
      ensures AskedFirst(o, now, agent, guard.calendar, retries, plan.requested, TargetOf(plan), contextOf, left, seen, receipt, m)
    {
      hide Valid, At, HoldsAt, Mine, MineMoney, Possible, PolicyTypes.ValidPolicy, Budget.ValidSettings, Settled, AskedFirst, Entered, TargetForm;
      ghost var t := Entered(o.policies(1), contextOf(TargetOf(plan)), now);
      NothingHeld(t.(status := Admission.Dropped), granted);
      var cleared, settled := Conclude(now, plan, h, log, source, s, null, t.(status := Admission.Dropped), denied, money, granted, o);
      NothingHeld(t.(status := Admission.Dropped), granted);
      m := granted.(status := if settled then Safety.Settled(o.cost, o.unsafe) else Safety.Freed);
      receipt := Receipt(source, null, money, cleared, false, cleared.Some? && o.requestBuilt);
      AskedOnce(o, now, agent, guard.calendar, retries, plan.requested, TargetOf(plan), contextOf, left, seen, verdict, money, granted, receipt, m);
    }

    /** Plans the request and routes it as planned. */
    method Choose(now: int, agent: string, config: Option<Config>, rule: Option<Rule>, live: Live, rewrite: Rewrite, requested: Form, pct: real,
                  source: Policy.Reservation?, ghost s: Admission.Entry, ghost h: Admission.History, ghost log: Safety.Log,
                  contextOf: Form -> PolicyTypes.Context, o: Outside)
      returns (receipt: Receipt, plan: Plan, ghost t: Admission.Entry, ghost m: Safety.Entry)
      requires Valid() && Proper(o, guard.calendar) && now >= 0 && guard.calendar.local(Budget.Daily, now) != 0
      requires At(source, s) && s.status == Admission.Prepared && Mine(h, source, null) && MineMoney(log, null)
      modifies source, engine, engine.store, guard, guard.store, others, others.policies, others.budgets
      ensures Valid() && Finished(receipt, h, log, s, t, m) && receipt.source == source
      ensures Honest(receipt, o, now, agent, m) && (receipt.target != null ==> fresh(receipt.target)) && (receipt.money != null ==> fresh(receipt.money))
      ensures ClearedAs(receipt, plan, rule, rewrite, requested, contextOf, t, o, now)
      ensures Routed(o, now, agent, guard.calendar, config, rule, live, rewrite, requested, pct, contextOf, Left(old(engine.history), source),
                     old(Sight(guard)), receipt, m)
    {
      hide Valid, At, HoldsAt, Mine, MineMoney, Possible, PolicyTypes.ValidPolicy, Budget.ValidSettings, Entered, Finished, Honest, Sure, Answer, Answered;
      hide Left, Consents, BudgetBooks.Follows, Moved, AskedFirst;
      ShiftsExactly(config, rule, live, pct, false);
      plan := new Plan(config, rule, live, rewrite, requested, pct);
      if plan.decision.action != NoAction && !o.boundaryOk {
        plan.CancelSelected();
      }
      t := Entered(o.policies(1), contextOf(TargetOf(plan)), now);
      if plan.decision.action == Shift {
        receipt, m := RouteTarget(now, agent, plan, source, s, h, log, contextOf, o, 0);
      } else {
        receipt, m := RouteSource(now, agent, plan, source, s, h, log, contextOf, o);
      }
    }

    /** The request has passed its policy. Others may act before its plan is made; without one it ends there. */
    method Proceed(now: int, agent: string, config: Option<Config>, rule: Option<Rule>, live: Live, rewrite: Rewrite, requested: Form, pct: real,
                   source: Policy.Reservation?, ghost s: Admission.Entry, ghost h: Admission.History, ghost log: Safety.Log,
                   contextOf: Form -> PolicyTypes.Context, o: Outside)
      returns (receipt: Receipt, plan: Plan?, ghost t: Admission.Entry, ghost m: Safety.Entry)
      requires Valid() && Proper(o, guard.calendar) && now >= 0 && guard.calendar.local(Budget.Daily, now) != 0
      requires At(source, s) && s.status == Admission.Prepared && Mine(h, source, null) && MineMoney(log, null)
      modifies source, engine, engine.store, guard, guard.store, others, others.policies, others.budgets
      ensures Valid() && Finished(receipt, h, log, s, t, m) && receipt.source == source
      ensures Honest(receipt, o, now, agent, m) && (receipt.target != null ==> fresh(receipt.target)) && (receipt.money != null ==> fresh(receipt.money))
      ensures ClearedAs(receipt, plan, rule, rewrite, requested, contextOf, t, o, now)
      ensures o.planOk && o.acts(0) == [] ==>
                Routed(o, now, agent, guard.calendar, config, rule, live, rewrite, requested, pct, contextOf, Left(old(engine.history), source),
                       old(Sight(guard)), receipt, m)
    {
      hide *;
      ProperAt(o, guard.calendar, 0);
      NothingHeld(s, NoMoney());
      Gap(o.acts(0), h, log, source, s, null, s, null, NoMoney());
      if !o.planOk {
        plan, t, m := null, s, NoMoney();
        NothingHeld(s, m);
        var closed := CloseGate(source, s, o.storeOk(3), h, null, s);
        receipt := Receipt(source, null, null, None, false, false);
        NothingSpent(receipt, h, log, s, t, o, now, agent);
        NotCleared(receipt, plan, rule, rewrite, requested, contextOf, t, o, now);
        return;
      }
      receipt, plan, t, m := Choose(now, agent, config, rule, live, rewrite, requested, pct, source, s, h, log, contextOf, o);
    }

    /** A cleared request was cleared as it went out: as the rule's target if it was switched, and
        otherwise as it came. */
    ghost predicate ClearedAs(receipt: Receipt, plan: Plan?, rule: Option<Rule>, rewrite: Rewrite, requested: Form,
                              contextOf: Form -> PolicyTypes.Context, t: Admission.Entry, o: Outside, now: int)
      reads plan
    {
      receipt.cleared.Some? ==>
        plan != null && plan.Valid() && plan.requested == requested && plan.rule == rule && plan.rewrite == rewrite
        && t == Entered(o.policies(1), contextOf(TargetForm(rule, rewrite, requested)), now)
        && receipt.cleared.value == plan.chosen
        && receipt.cleared.value == (if receipt.switched then TargetForm(rule, rewrite, requested) else requested)
        && (receipt.switched <==> plan.decision.action == Shift)
    }

    lemma NotCleared(receipt: Receipt, plan: Plan?, rule: Option<Rule>, rewrite: Rewrite, requested: Form,
                     contextOf: Form -> PolicyTypes.Context, t: Admission.Entry, o: Outside, now: int)
      requires receipt.cleared.None?
      ensures ClearedAs(receipt, plan, rule, rewrite, requested, contextOf, t, o, now)
    {
    }

    /** One request. Whatever it has added to either guard when it ends is on its receipt: its policy
        reservations are closed and its budget reservation is given back. The policy has counted it
        exactly when both guards cleared it, once, under the form it was cleared as; no policy is
        bypassed, and a consenting policy and budget are not refused. Once cleared it stays counted
        even when the outgoing request cannot be built, in which case nothing is sent. */
    method Forward(now: int, agent: string, config: Option<Config>, rule: Option<Rule>, live: Live, rewrite: Rewrite, requested: Form, pct: real,
                   contextOf: Form -> PolicyTypes.Context, o: Outside)
      returns (receipt: Receipt, plan: Plan?, ghost s: Admission.Entry, ghost t: Admission.Entry, ghost m: Safety.Entry)
      requires Valid() && Proper(o, guard.calendar) && now >= 0 && guard.calendar.local(Budget.Daily, now) != 0
      modifies engine, engine.store, guard, guard.store, others, others.policies, others.budgets
      ensures Valid() && Finished(receipt, old(engine.history), old(guard.log), s, t, m)
      ensures receipt.source != null ==> fresh(receipt.source)
      ensures receipt.target != null ==> fresh(receipt.target)
      ensures receipt.money != null ==> fresh(receipt.money)
      ensures s == Entered(o.policies(0), contextOf(requested), now)
      ensures Honest(receipt, o, now, agent, m)
      ensures !Consents(o.policies(0), contextOf(requested), now, o.storeOk(0), old(engine.history)) ==>
                receipt == Receipt(null, null, null, None, false, false)
      ensures Consents(o.policies(0), contextOf(requested), now, o.storeOk(0), old(engine.history)) ==>
                (receipt.source == null ==> o.policies(0).None?)
      ensures ClearedAs(receipt, plan, rule, rewrite, requested, contextOf, t, o, now)
      ensures Consents(o.policies(0), contextOf(requested), now, o.storeOk(0), old(engine.history)) && o.planOk && o.acts(0) == [] ==>
                Routed(o, now, agent, guard.calendar, config, rule, live, rewrite, requested, pct, contextOf, old(engine.history),
                       old(Sight(guard)), receipt, m)
    {
      hide *;
      ProperAt(o, guard.calendar, 0);
      ghost var h, log := engine.history, guard.log;
      plan := null;
      m := NoMoney();
      s := Entered(o.policies(0), contextOf(requested), now);
      EnteredIsPrepared(o.policies(0), contextOf(requested), now);
      t := s;
      NothingHeld(s, m);
      NothingMine();
      var gate := OpenGate(now, contextOf(requested), o.policies(0), o.storeOk(0), h, null, s);
      if !gate.Open? {
        receipt := Receipt(null, null, null, None, false, false);
        NothingHeld(s.(status := Admission.Dropped), m);
        NothingSpent(receipt, h, log, s, t, o, now, agent);
        NotCleared(receipt, plan, rule, rewrite, requested, contextOf, t, o, now);
        return;
      }
      var source := gate.reservation;
      NothingHeld(s, m);
      MineSwaps(h, null, source);
      ghost var entered, seen := engine.history, Sight(guard);
      receipt, plan, t, m := Proceed(now, agent, config, rule, live, rewrite, requested, pct, source, s, h, log, contextOf, o);
      if o.acts(0) == [] && o.planOk {
        SourcePlaysNoPart(o, now, agent, guard.calendar, config, rule, live, rewrite, requested, pct, contextOf, h, s, entered, source, seen, receipt, m);
      }
    }
  }

  /** The history once the reservation is given back. */
  ghost function Left(h: Admission.History, r: Policy.Reservation?): Admission.History {
    if r != null && 0 <= r.Index() < |h| then h[r.Index() := h[r.Index()].(status := Admission.Dropped)] else h
  }

  /** The policy guard's own answer: nothing to ask, or an admission. */
  ghost predicate Consents(policy: Option<PolicyTypes.Policy>, context: PolicyTypes.Context, now: int, storeOk: bool, h: Admission.History)
    requires policy.Some? ==> PolicyTypes.ValidPolicy(policy.value)
  {
    storeOk && if policy.Some? then Admission.Admits(policy.value, context, now, h) else !Admission.BadEstimate(context)
  }

  /** Nothing on the receipt stands for a guard that was not asked: only where no policy is active is
      there no policy entry, and the budget entry is this request's, at its time, settled at the cost of what
      was sent unless its owner is not the agent or the ledger will not take it, and given back otherwise. */
  ghost predicate Honest(receipt: Receipt, o: Outside, now: int, agent: string, m: Safety.Entry) {
    (receipt.cleared.Some? && receipt.switched && receipt.target == null ==> o.policies(1).None?)
    && (receipt.cleared.Some? <==> receipt.money != null && ((if receipt.switched then receipt.target else receipt.source) == null || o.storeOk(3)))
    && (receipt.sent <==> receipt.cleared.Some? && o.requestBuilt)
    && (receipt.money != null ==>
          m.ts == now && m.agent == agent
          && m.status == if receipt.sent && o.owner == agent && o.cost >= 0.0 && o.insertOk then Safety.Settled(o.cost, o.unsafe) else Safety.Freed)
  }

  /** Nothing outside can keep the guard from answering by the ledger. */
  ghost predicate Sure(settings: Budget.Settings, now: int, estimate: Budget.Estimate, world: Money.World, seen: View)
    requires Budget.ValidSettings(settings)
  {
    Money.CalmWorld(world) && Money.Undisturbed(settings, now, seen.orderly, seen.revision, seen.revision) && estimate.usd >= 0.0
  }

  ghost function Answer(settings: Budget.Settings, calendar: Budget.Calendar, now: int, agent: string, estimate: Budget.Estimate, seen: View): Budget.Verdict
    requires Budget.ValidSettings(settings)
  {
    Budget.Admission(settings, calendar, seen.trip, now, agent, seen.rows, seen.held, estimate)
  }

  /** What the guard goes by has not changed. */
  ghost predicate SeenAgain(a: View, b: View) {
    b.rows == a.rows && b.revision == a.revision && b.trip == a.trip && b.held == a.held && (a.orderly ==> b.orderly)
  }

  lemma AnswersAgain(settings: Budget.Settings, calendar: Budget.Calendar, now: int, agent: string, estimate: Budget.Estimate, world: Money.World, a: View, b: View)
    requires Budget.ValidSettings(settings) && SeenAgain(a, b) && Sure(settings, now, estimate, world, a)
    ensures Sure(settings, now, estimate, world, b)
    ensures Answer(settings, calendar, now, agent, estimate, a) == Answer(settings, calendar, now, agent, estimate, b)
  {
    hide Budget.ValidSettings, Budget.Admission, Money.CalmWorld;
  }

  /** A request past the threshold goes out as the target at once: the rule fits, the configuration
      acts, the target is usable and, next to a priced source, cheaper. */
  ghost predicate GoesFirst(config: Option<Config>, rule: Option<Rule>, live: Live, rewrite: Rewrite, requested: Form, pct: real, o: Outside) {
    config.Some? && Compatible(rule, live) && !config.value.observe && pct >= config.value.downshiftAtPct && Usable(rule.value, rewrite)
    && (requested.info.admission.priced ==> Cheaper(rewrite.info.admission, requested.info.admission)) && o.boundaryOk
  }

  /** A budget denial is retried as the target. */
  ghost predicate Retries(config: Option<Config>, rule: Option<Rule>, live: Live, rewrite: Rewrite, o: Outside) {
    config.Some? && config.value.downshiftOnDenial && !config.value.observe && Compatible(rule, live) && Usable(rule.value, rewrite) && o.boundaryOk
  }

  /** The request left its own form behind. Where the target's policy consents and the budget grants
      it, the grant is reserved in its amount and, once committed, the target is what is cleared;
      otherwise nothing is reserved and nothing cleared. */
  ghost predicate Moved(consented: bool, verdict: Budget.Verdict, committed: bool, target: Form, receipt: Receipt, m: Safety.Entry) {
    receipt.switched
    && if consented && verdict.Granted?
       then receipt.money != null && m.amount == verdict.amount
            && receipt.cleared == if receipt.target == null || committed then Some(target) else None
       else receipt.money == null && receipt.cleared.None?
  }

  /** A grant is reserved in its amount, for the form that was asked; a refusal that is final, or
      that nothing cheaper may answer, reserves nothing and clears nothing. */
  ghost predicate Answered(verdict: Budget.Verdict, retries: bool, receipt: Receipt, m: Safety.Entry) {
    match verdict
    case Granted(amount) => receipt.money != null && m.amount == amount && !receipt.switched
    case Refused(denial) => (Retryable(denial) && retries) || (receipt.money == null && receipt.cleared.None? && !receipt.switched)
  }

  /** The request is asked for as it came; refused for want of a price or of room, and where a retry
      is to be had, it is the target's policy and the budget's answer to the target that decide. */
  ghost predicate AskedFirst(o: Outside, now: int, agent: string, calendar: Budget.Calendar, retries: bool, requested: Form, target: Form,
                             contextOf: Form -> PolicyTypes.Context, h: Admission.History, seen: View, receipt: Receipt, m: Safety.Entry)
    requires Proper(o, calendar)
  {
    Sure(o.settings(0), now, requested.info.admission, o.worlds(0), seen) ==>
      var first := Answer(o.settings(0), calendar, now, agent, requested.info.admission, seen);
      Answered(first, retries, receipt, m)
      && (first.Refused? && Retryable(first.denial) && retries && o.acts(1) == [] && o.acts(2) == []
          && BudgetBooks.Follows(calendar, seen.last, now) && Sure(o.settings(1), now, target.info.admission, o.worlds(1), seen) ==>
            Moved((receipt.source == null || o.storeOk(1)) && Consents(o.policies(1), contextOf(target), now, o.storeOk(2), h),
                  Answer(o.settings(1), calendar, now, agent, target.info.admission, seen), o.storeOk(3), target, receipt, m))
  }

  /** The budget refused the request as it came, for a reason that allows a retry, and has not moved
      since it was seen. */
  ghost predicate Denied(o: Outside, now: int, agent: string, calendar: Budget.Calendar, requested: Form, verdict: Option<Budget.Verdict>,
                         seen: View, again: View)
    requires Proper(o, calendar)
  {
    verdict.Some? && verdict.value.Refused? && Retryable(verdict.value.denial)
    && (Sure(o.settings(0), now, requested.info.admission, o.worlds(0), seen) ==>
          verdict.value == Answer(o.settings(0), calendar, now, agent, requested.info.admission, seen)
          && (BudgetBooks.Follows(calendar, seen.last, now) ==> SeenAgain(seen, again)))
  }

  lemma DeniedThen(o: Outside, now: int, agent: string, calendar: Budget.Calendar, requested: Form, verdict: Option<Budget.Verdict>, seen: View, again: View)
    requires Proper(o, calendar) && verdict.Some? && verdict.value.Refused? && Retryable(verdict.value.denial)
    requires Sure(o.settings(0), now, requested.info.admission, o.worlds(0), seen) ==>
               verdict == Some(Answer(o.settings(0), calendar, now, agent, requested.info.admission, seen))
    requires Sure(o.settings(0), now, requested.info.admission, o.worlds(0), seen) && BudgetBooks.Follows(calendar, seen.last, now) ==> SeenAgain(seen, again)
    ensures Denied(o, now, agent, calendar, requested, verdict, seen, again)
  {
    hide Sure, Answer, SeenAgain, Budget.ValidSettings, PolicyTypes.ValidPolicy, BudgetBooks.Follows;
  }

  lemma AskedAgain(o: Outside, now: int, agent: string, calendar: Budget.Calendar, retries: bool, requested: Form, target: Form,
                   contextOf: Form -> PolicyTypes.Context, h: Admission.History, seen: View, again: View, verdict: Option<Budget.Verdict>,
                   receipt: Receipt, m: Safety.Entry)
    requires Proper(o, calendar) && retries && Denied(o, now, agent, calendar, requested, verdict, seen, again)
    requires o.acts(1) == [] && o.acts(2) == [] && Sure(o.settings(1), now, target.info.admission, o.worlds(1), again) ==>
               Moved((receipt.source == null || o.storeOk(1)) && Consents(o.policies(1), contextOf(target), now, o.storeOk(2), h),
                     Answer(o.settings(1), calendar, now, agent, target.info.admission, again), o.storeOk(3), target, receipt, m)
    ensures AskedFirst(o, now, agent, calendar, retries, requested, target, contextOf, h, seen, receipt, m)
  {
    hide Sure, Answer, Moved, Consents, BudgetBooks.Follows, SeenAgain, Budget.ValidSettings, PolicyTypes.ValidPolicy;
    if SeenAgain(seen, again) && Sure(o.settings(1), now, target.info.admission, o.worlds(1), seen) {
      AnswersAgain(o.settings(1), calendar, now, agent, target.info.admission, o.worlds(1), seen, again);
    }
  }

  /** The budget's answer to the request as it came, after which there is no retry. */
  ghost predicate Settled(o: Outside, now: int, agent: string, calendar: Budget.Calendar, retries: bool, requested: Form,
                          verdict: Option<Budget.Verdict>, money: Money.Reservation?, granted: Safety.Entry, seen: View)
    requires Proper(o, calendar)
  {
    (verdict.Some? && verdict.value.Refused? && Retryable(verdict.value.denial) ==> !retries)
    && (Sure(o.settings(0), now, requested.info.admission, o.worlds(0), seen) ==>
          verdict == Some(Answer(o.settings(0), calendar, now, agent, requested.info.admission, seen)))
    && (verdict.Some? && verdict.value.Granted? <==> money != null)
    && (money != null ==> granted.amount == verdict.value.amount)
  }

  lemma SettledFirst(o: Outside, now: int, agent: string, calendar: Budget.Calendar, retries: bool, requested: Form,
                     verdict: Option<Budget.Verdict>, money: Money.Reservation?, granted: Safety.Entry, seen: View)
    requires Proper(o, calendar) && (verdict.Some? && verdict.value.Refused? && Retryable(verdict.value.denial) ==> !retries)
    requires Sure(o.settings(0), now, requested.info.admission, o.worlds(0), seen) ==>
               verdict == Some(Answer(o.settings(0), calendar, now, agent, requested.info.admission, seen))
    requires (verdict.Some? && verdict.value.Granted? <==> money != null) && (money != null ==> granted.amount == verdict.value.amount)
    ensures Settled(o, now, agent, calendar, retries, requested, verdict, money, granted, seen)
  {
    hide Sure, Answer, Budget.ValidSettings, PolicyTypes.ValidPolicy;
  }

  lemma AskedOnce(o: Outside, now: int, agent: string, calendar: Budget.Calendar, retries: bool, requested: Form, target: Form,
                  contextOf: Form -> PolicyTypes.Context, h: Admission.History, seen: View, verdict: Option<Budget.Verdict>,
                  money: Money.Reservation?, granted: Safety.Entry, receipt: Receipt, m: Safety.Entry)
    requires Proper(o, calendar) && Settled(o, now, agent, calendar, retries, requested, verdict, money, granted, seen)
    requires !receipt.switched && receipt.money == money && (money == null ==> receipt.cleared.None?) && m.amount == granted.amount
    ensures AskedFirst(o, now, agent, calendar, retries, requested, target, contextOf, h, seen, receipt, m)
  {
    hide Sure, Answer, Moved, Consents, BudgetBooks.Follows, Budget.ValidSettings, PolicyTypes.ValidPolicy;
  }

  /** Which form a request that its policy let through goes out as, and what comes of it. */
  ghost predicate Routed(o: Outside, now: int, agent: string, calendar: Budget.Calendar,
                         config: Option<Config>, rule: Option<Rule>, live: Live, rewrite: Rewrite, requested: Form, pct: real,
                         contextOf: Form -> PolicyTypes.Context, h: Admission.History, seen: View, receipt: Receipt, m: Safety.Entry)
    requires Proper(o, calendar)
  {
    var target := TargetForm(rule, rewrite, requested);
    if GoesFirst(config, rule, live, rewrite, requested, pct, o) then
      o.acts(1) == [] && o.acts(2) == [] && Sure(o.settings(0), now, target.info.admission, o.worlds(0), seen) ==>
        Moved((receipt.source == null || o.storeOk(1)) && Consents(o.policies(1), contextOf(target), now, o.storeOk(2), h),
              Answer(o.settings(0), calendar, now, agent, target.info.admission, seen), o.storeOk(3), target, receipt, m)
    else AskedFirst(o, now, agent, calendar, Retries(config, rule, live, rewrite, o), requested, target, contextOf, h, seen, receipt, m)
  }

  /** What the source asked of its policy and gave back plays no part in what the target is told. */
  lemma SourcePlaysNoPart(o: Outside, now: int, agent: string, calendar: Budget.Calendar,
                          config: Option<Config>, rule: Option<Rule>, live: Live, rewrite: Rewrite, requested: Form, pct: real,
                          contextOf: Form -> PolicyTypes.Context, h: Admission.History, s: Admission.Entry, entered: Admission.History,
                          source: Policy.Reservation?, seen: View, receipt: Receipt, m: Safety.Entry)
    requires Proper(o, calendar)
    requires if source == null then entered == h else source.Index() == |h| && entered == h + [s]
    requires Routed(o, now, agent, calendar, config, rule, live, rewrite, requested, pct, contextOf, Left(entered, source), seen, receipt, m)
    ensures Routed(o, now, agent, calendar, config, rule, live, rewrite, requested, pct, contextOf, h, seen, receipt, m)
  {
    hide PolicyTypes.ValidPolicy, Budget.ValidSettings, Admission.Admits, Admission.BadEstimate, Sure, Answer, Moved, Answered, GoesFirst, Retries, BudgetBooks.Follows;
    if source != null {
      assert Left(entered, source) == h + [s.(status := Admission.Dropped)];
      if o.policies(1).Some? {
        DroppedDecidesNothing(o.policies(1).value, contextOf(TargetForm(rule, rewrite, requested)), now, h, s.(status := Admission.Dropped));
      }
    }
  }

  lemma DroppedDecidesNothing(policy: PolicyTypes.Policy, context: PolicyTypes.Context, now: int, h: Admission.History, e: Admission.Entry)
    requires PolicyTypes.ValidPolicy(policy) && e.status == Admission.Dropped
    ensures Admission.Admits(policy, context, now, h + [e]) <==> Admission.Admits(policy, context, now, h)
  {
    hide PolicyTypes.ValidRule, Admission.Decide, Admission.Applies, Admission.Broken, Admission.BadEstimate, Admission.Unrepresentable;
    Admission.DeniedIffBroken(policy, context, now, h, false);
    Admission.DeniedIffBroken(policy, context, now, h + [e], false);
    forall rule | rule in policy.rules
      ensures PolicyTypes.ValidRule(policy, rule)
      ensures Admission.Broken(policy, rule, context, now, h + [e], false, true) <==> Admission.Broken(policy, rule, context, now, h, false, true)
    {
      DroppedBreaksNothing(policy, rule, context, now, h, e);
    }
  }

  lemma DroppedBreaksNothing(policy: PolicyTypes.Policy, rule: PolicyTypes.Rule, context: PolicyTypes.Context, now: int, h: Admission.History, e: Admission.Entry)
    requires PolicyTypes.ValidRule(policy, rule) && e.status == Admission.Dropped
    ensures Admission.Broken(policy, rule, context, now, h + [e], false, true) <==> Admission.Broken(policy, rule, context, now, h, false, true)
  {
    hide PolicyTypes.WindowStart, Admission.Current, Admission.SlotsHeld, Admission.StaticBroken, Admission.IdentityViolations;
    hide PolicyTypes.EstimatedTokensForKind, PolicyTypes.ConservativeCostMicroUSD, PolicyTypes.HasEffect, PolicyTypes.ValidDimension;
    var key, l := Admission.RuleKey(policy, rule), rule.limits;
    forall since, counter ensures Admission.Current(h + [e], key, since, counter, false) == Admission.Current(h, key, since, counter, false) {
      CurrentWithoutDropped(h, e, key, since, counter);
    }
    Admission.SlotsAppend(h, e, key);
    forall i | 0 <= i < |l.requests|
      ensures Admission.RequestExceeded(l.requests[i], key, now, h + [e], false) <==> Admission.RequestExceeded(l.requests[i], key, now, h, false) {
    }
    forall i | 0 <= i < |l.tokens|
      ensures Admission.TokenExceeded(l.tokens[i], context, key, now, h + [e], false) <==> Admission.TokenExceeded(l.tokens[i], context, key, now, h, false) {
    }
    forall i | 0 <= i < |l.dollars|
      ensures Admission.DollarObjects(l.dollars[i], context, key, now, h + [e], false) <==> Admission.DollarObjects(l.dollars[i], context, key, now, h, false) {
    }
  }

  lemma CurrentWithoutDropped(h: Admission.History, e: Admission.Entry, key: Admission.Key, since: int, counter: Admission.Counter)
    requires e.status == Admission.Dropped
    ensures Admission.Current(h + [e], key, since, counter, false) == Admission.Current(h, key, since, counter, false)
  {
    hide Admission.UsageIn;
    Admission.UsageAppend(h, e, Admission.Span(key, since, None), Admission.LIVE, counter);
  }

  lemma MineAcross(h: Admission.History, was: Admission.History, now: Admission.History, few: set<int>, many: set<int>, a: Policy.Reservation?, b: Policy.Reservation?)
    requires |h| <= |was| && Same(was, now, many) && few <= many
    requires forall i :: 0 <= i < |was| && i !in few && !IsAt(a, i) && !IsAt(b, i) ==> i < |h| && was[i] == h[i]
    ensures |h| <= |now| && forall i :: 0 <= i < |now| && i !in many && !IsAt(a, i) && !IsAt(b, i) ==> i < |h| && now[i] == h[i]
  {
    hide IsAt;
  }

  lemma MineMoneyAcross(log: Safety.Log, was: Safety.Log, now: Safety.Log, few: set<int>, many: set<int>, b: Money.Reservation?)
    requires |log| <= |was| && SameLog(was, now, many) && few <= many
    requires forall i :: 0 <= i < |was| && i !in few && !(b != null && b.index == i) ==> i < |log| && was[i] == log[i]
    ensures |log| <= |now| && forall i :: 0 <= i < |now| && i !in many && !(b != null && b.index == i) ==> i < |log| && now[i] == log[i]
  {
  }

  /** The budget denials a cheaper form of the request might avoid. */
  predicate Retryable(denial: Budget.Denial) { denial.ExceedsRemaining? || denial.UnpricedRequest? }

  lemma EnteredIsPrepared(policy: Option<PolicyTypes.Policy>, context: PolicyTypes.Context, now: int)
    ensures Entered(policy, context, now).status == Admission.Prepared
  {
  }

  function TargetForm(rule: Option<Rule>, rewrite: Rewrite, requested: Form): Form {
    if rule.Some? && rewrite.Rewritten?
    then Form(rule.value.targetRoute, rewrite.path, rewrite.path, rewrite.body, rule.value.targetDialect, rewrite.info)
    else requested
  }

  function TargetOf(plan: Plan): Form { TargetForm(plan.rule, plan.rewrite, plan.requested) }

  /** An entry that was given back counts under no rule: every total is as if it had never been made. */
  lemma DroppedCountsNothing(h: Admission.History, i: nat, span: Admission.Span, counter: Admission.Counter)
    requires i < |h| && h[i].status == Admission.Dropped
    ensures Admission.UsageIn(h, span, Admission.LIVE, counter) == Admission.UsageIn(h[..i] + h[i + 1..], span, Admission.LIVE, counter)
  {
    hide Admission.UsageIn;
    var rest := h[i + 1..];
    assert h == h[..i] + ([h[i]] + rest);
    Policy.UsageConcat(h[..i], [h[i]] + rest, span, Admission.LIVE, counter);
    Policy.UsageConcat([h[i]], rest, span, Admission.LIVE, counter);
    Policy.UsageConcat(h[..i], rest, span, Admission.LIVE, counter);
    AloneCountsNothing(h[i], span, counter);
  }

  lemma AloneCountsNothing(e: Admission.Entry, span: Admission.Span, counter: Admission.Counter)
    requires e.status == Admission.Dropped
    ensures Admission.UsageIn([e], span, Admission.LIVE, counter) == 0
  {
  }

  /** What a request leaves behind: its reservations, the form both guards cleared, whether its
      policy reservation was moved to the target, and whether it went out. */
  datatype Receipt = Receipt(source: Policy.Reservation?, target: Policy.Reservation?, money: Money.Reservation?,
                             cleared: Option<Form>, switched: bool, sent: bool)

  ghost function NoMoney(): Safety.Entry { Safety.Entry(0, "", 0.0, Safety.Freed) }
}
