/** The live engine: pending and in-flight maps, durable decision rows, and reservations that
    mutate them. Every call is tied to one step of the history in module Admission. */
module PolicyEngine {
  import opened Common
  import opened PolicyTypes
  import opened Admission
  import Sorting

  // ----- the durable store -----

  datatype RuleRow = RuleRow(ruleID: string, accepted: bool, usage: Usage)

  datatype DecisionRecord = DecisionRecord(ts: int, namespace: string, denied: bool, admitted: bool, rules: seq<RuleRow>)

  ghost function RowsAmount(rows: seq<RuleRow>, ruleID: string, counter: Counter): int {
    if rows == [] then 0
    else
      var last := rows[|rows| - 1];
      RowsAmount(rows[..|rows| - 1], ruleID, counter)
      + (if last.accepted && last.ruleID == ruleID then Amount(last.usage, counter) else 0)
  }

  ghost function RecordAmount(record: DecisionRecord, key: Key, since: int, counter: Counter): int {
    if record.namespace == key.namespace && since <= record.ts then RowsAmount(record.rules, key.ruleID, counter) else 0
  }

  ghost function StoredAmount(decisions: seq<DecisionRecord>, key: Key, since: int, counter: Counter): int {
    if decisions == [] then 0
    else StoredAmount(decisions[..|decisions| - 1], key, since, counter)
         + RecordAmount(decisions[|decisions| - 1], key, since, counter)
  }

  ghost predicate SoundRows(rows: seq<RuleRow>) {
    forall i :: 0 <= i < |rows| ==> NonNegative(rows[i].usage)
  }

  ghost predicate SoundStore(decisions: seq<DecisionRecord>) {
    forall i :: 0 <= i < |decisions| ==> SoundRows(decisions[i].rules)
  }

  const NO_USAGE := Usage(0, 0, 0, 0, 0)

  function SaturatedUsage(a: Usage, b: Usage): (r: Usage)
    ensures forall c: Counter :: Amount(r, c) == SaturatedAdd(Amount(a, c), Amount(b, c))
  {
    Usage(SaturatedAdd(a.requests, b.requests), SaturatedAdd(a.input, b.input), SaturatedAdd(a.output, b.output),
          SaturatedAdd(a.total, b.total), SaturatedAdd(a.cost, b.cost))
  }

  lemma AmountNonNegative(usage: Usage, counter: Counter)
    requires NonNegative(usage)
    ensures Amount(usage, counter) >= 0
  {
  }

  lemma {:induction false} RowsNonNegative(rows: seq<RuleRow>, ruleID: string, counter: Counter)
    requires SoundRows(rows)
    ensures RowsAmount(rows, ruleID, counter) >= 0
  {
    if rows != [] {
      RowsNonNegative(rows[..|rows| - 1], ruleID, counter);
    }
  }

  lemma {:induction false} StoredNonNegative(decisions: seq<DecisionRecord>, key: Key, since: int, counter: Counter)
    requires SoundStore(decisions)
    ensures StoredAmount(decisions, key, since, counter) >= 0
  {
    if decisions != [] {
      StoredNonNegative(decisions[..|decisions| - 1], key, since, counter);
      RowsNonNegative(decisions[|decisions| - 1].rules, key.ruleID, counter);
    }
  }

  class Store {
    var decisions: seq<DecisionRecord>

    constructor ()
      ensures decisions == []
    {
      decisions := [];
    }

    /** One transaction: all of the record or, when the store fails, none of it. */
    method InsertPolicyDecision(record: DecisionRecord, ok: bool) returns (inserted: bool)
      modifies this
      ensures inserted == ok
      ensures decisions == if ok then old(decisions) + [record] else old(decisions)
    {
      if ok {
        decisions := decisions + [record];
      }
      return ok;
    }

    /** Saturating totals over the accepted rows of one rule. */
    method PolicyRuleUsageSince(namespace: string, ruleID: string, since: int) returns (usage: Usage)
      requires SoundStore(decisions)
      ensures forall c: Counter ::
                Amount(usage, c) == Min(MAX_INT64, StoredAmount(decisions, Key(namespace, ruleID), since, c))
    {
      usage := NO_USAGE;
      var key := Key(namespace, ruleID);
      for i := 0 to |decisions|
        invariant forall c: Counter :: Amount(usage, c) == Min(MAX_INT64, StoredAmount(decisions[..i], key, since, c))
      {
        ghost var stored := decisions[..i];
        assert decisions[..i + 1] == stored + [decisions[i]];
        assert (stored + [decisions[i]])[..i] == stored;
        if decisions[i].namespace == namespace && since <= decisions[i].ts {
          var rows := decisions[i].rules;
          for j := 0 to |rows|
            invariant forall c: Counter ::
                        Amount(usage, c) == Min(MAX_INT64, StoredAmount(stored, key, since, c) + RowsAmount(rows[..j], ruleID, c))
          {
            assert rows[..j + 1][..j] == rows[..j];
            if rows[j].accepted && rows[j].ruleID == ruleID {
              forall c: Counter
                ensures SaturatedAdd(Amount(usage, c), Amount(rows[j].usage, c))
                        == Min(MAX_INT64, StoredAmount(stored, key, since, c) + RowsAmount(rows[..j + 1], ruleID, c))
              {
                StoredNonNegative(stored, key, since, c);
                RowsNonNegative(rows[..j], ruleID, c);
                AmountNonNegative(rows[j].usage, c);
              }
              usage := SaturatedUsage(usage, rows[j].usage);
            }
          }
          assert rows[..|rows|] == rows;
        }
      }
      assert decisions[..|decisions|] == decisions;
    }
  }

  // ----- rows written for a reservation -----

  function CounterRows(rules: seq<Rule>, accepted: bool, usage: Usage): seq<RuleRow> {
    if rules == [] then []
    else
      var n := |rules| - 1;
      CounterRows(rules[..n], accepted, usage)
      + (if HasCounters(rules[n]) then [RuleRow(rules[n].id, accepted, usage)] else [])
  }

  ghost predicate DistinctIds(rules: seq<Rule>) {
    forall i, j :: 0 <= i < j < |rules| ==> rules[i].id != rules[j].id
  }

  ghost predicate Counted(rules: seq<Rule>, ruleID: string) {
    exists i :: 0 <= i < |rules| && rules[i].id == ruleID && HasCounters(rules[i])
  }

  lemma CountedStep(rules: seq<Rule>, ruleID: string)
    requires rules != []
    ensures var n := |rules| - 1;
            Counted(rules, ruleID) <==> Counted(rules[..n], ruleID) || (rules[n].id == ruleID && HasCounters(rules[n]))
  {
    var n := |rules| - 1;
    assert forall i :: 0 <= i < n ==> rules[..n][i] == rules[i];
    if Counted(rules[..n], ruleID) {
      var i :| 0 <= i < n && rules[..n][i].id == ruleID && HasCounters(rules[..n][i]);
      assert rules[i].id == ruleID && HasCounters(rules[i]);
    }
    if Counted(rules, ruleID) {
      var i :| 0 <= i < |rules| && rules[i].id == ruleID && HasCounters(rules[i]);
      assert i < n ==> rules[..n][i].id == ruleID && HasCounters(rules[..n][i]);
    }
  }

  lemma RowsAppend(rows: seq<RuleRow>, row: RuleRow, ruleID: string, counter: Counter)
    ensures RowsAmount(rows + [row], ruleID, counter)
            == RowsAmount(rows, ruleID, counter) + (if row.accepted && row.ruleID == ruleID then Amount(row.usage, counter) else 0)
  {
    assert (rows + [row])[..|rows|] == rows;
  }

  lemma {:induction false} CounterRowsAmount(rules: seq<Rule>, accepted: bool, usage: Usage, ruleID: string, counter: Counter)
    requires DistinctIds(rules)
    ensures RowsAmount(CounterRows(rules, accepted, usage), ruleID, counter)
            == if accepted && Counted(rules, ruleID) then Amount(usage, counter) else 0
  {
    hide HasCounters, RowsAmount;
    if rules == [] {
      NoRows(ruleID, counter);
    } else {
      var n := |rules| - 1;
      CounterRowsAmount(rules[..n], accepted, usage, ruleID, counter);
      CountedStep(rules, ruleID);
      var front := CounterRows(rules[..n], accepted, usage);
      RowsAppend(front, RuleRow(rules[n].id, accepted, usage), ruleID, counter);
      assert front + [] == front;
      assert Counted(rules[..n], ruleID) ==> rules[n].id != ruleID;
    }
  }

  lemma NoRows(ruleID: string, counter: Counter)
    ensures RowsAmount([], ruleID, counter) == 0
  {
  }

  lemma {:induction false} CounterRowsSound(rules: seq<Rule>, accepted: bool, usage: Usage)
    requires NonNegative(usage)
    ensures SoundRows(CounterRows(rules, accepted, usage))
  {
    if rules != [] {
      CounterRowsSound(rules[..|rules| - 1], accepted, usage);
    }
  }

  function Marked(rows: seq<RuleRow>, accepted: bool): (r: seq<RuleRow>)
    ensures |r| == |rows|
    ensures forall i :: 0 <= i < |rows| ==> r[i] == rows[i].(accepted := accepted)
  {
    seq(|rows|, i requires 0 <= i < |rows| => rows[i].(accepted := accepted))
  }

  lemma {:induction false} MarkedAmount(rows: seq<RuleRow>, accepted: bool, ruleID: string, counter: Counter)
    requires forall i :: 0 <= i < |rows| ==> rows[i].accepted
    ensures RowsAmount(Marked(rows, accepted), ruleID, counter)
            == if accepted then RowsAmount(rows, ruleID, counter) else 0
  {
    if rows != [] {
      var n := |rows| - 1;
      MarkedAmount(rows[..n], accepted, ruleID, counter);
      assert Marked(rows, accepted)[..n] == Marked(rows[..n], accepted);
    }
  }

  /** Accepting this record adds exactly what `e` counts. */
  ghost predicate Represents(record: DecisionRecord, e: Entry) {
    record.ts == e.ts && SoundRows(record.rules)
    && (forall i :: 0 <= i < |record.rules| ==> record.rules[i].accepted)
    && forall key: Key, since: int, counter: Counter ::
         RecordAmount(record, key, since, counter)
         == if key in e.counterKeys && since <= e.ts then Amount(e.usage, counter) else 0
  }

  lemma RepresentsAtAnyStatus(record: DecisionRecord, e: Entry, status: Status)
    requires Represents(record, e)
    ensures Represents(record, e.(status := status))
  {
  }

  // ----- history carried over from rows already stored -----

  ghost function PastRows(record: DecisionRecord, rows: seq<RuleRow>): History {
    if rows == [] then []
    else
      var last := rows[|rows| - 1];
      PastRows(record, rows[..|rows| - 1])
      + [Entry(record.ts, last.usage, {Key(record.namespace, last.ruleID)}, {}, if last.accepted then Done else Dropped)]
  }

  /** Rows left by earlier processes are closed reservations. */
  ghost function Past(decisions: seq<DecisionRecord>): History {
    if decisions == [] then []
    else
      var last := decisions[|decisions| - 1];
      Past(decisions[..|decisions| - 1]) + PastRows(last, last.rules)
  }

  lemma {:induction false} UsageConcat(a: History, b: History, span: Span, statuses: set<Status>, counter: Counter)
    ensures UsageIn(a + b, span, statuses, counter) == UsageIn(a, span, statuses, counter) + UsageIn(b, span, statuses, counter)
  {
    if b == [] {
      assert a + b == a;
    } else {
      UsageConcat(a, b[..|b| - 1], span, statuses, counter);
      assert a + b == (a + b[..|b| - 1]) + [b[|b| - 1]];
      UsageAppend(a + b[..|b| - 1], b[|b| - 1], span, statuses, counter);
    }
  }

  lemma {:induction false} PastRowsUsage(record: DecisionRecord, rows: seq<RuleRow>, key: Key, since: int, counter: Counter)
    requires SoundRows(rows)
    ensures UsageIn(PastRows(record, rows), Span(key, since, None), DURABLE, counter)
            == if record.namespace == key.namespace && since <= record.ts then RowsAmount(rows, key.ruleID, counter) else 0
    ensures Quiescent(PastRows(record, rows)) && WellFormed(PastRows(record, rows))
  {
    if rows != [] {
      PastRowsUsage(record, rows[..|rows| - 1], key, since, counter);
      var front := PastRows(record, rows[..|rows| - 1]);
      var whole := PastRows(record, rows);
      assert whole[..|front|] == front;
    }
  }

  lemma {:induction false} PastUsage(decisions: seq<DecisionRecord>, key: Key, since: int, counter: Counter)
    requires SoundStore(decisions)
    ensures UsageIn(Past(decisions), Span(key, since, None), DURABLE, counter) == StoredAmount(decisions, key, since, counter)
    ensures Quiescent(Past(decisions)) && WellFormed(Past(decisions))
  {
    if decisions != [] {
      var last := decisions[|decisions| - 1];
      PastUsage(decisions[..|decisions| - 1], key, since, counter);
      PastRowsUsage(last, last.rules, key, since, counter);
      UsageConcat(Past(decisions[..|decisions| - 1]), PastRows(last, last.rules), Span(key, since, None), DURABLE, counter);
    }
  }

  // ----- pending reservations -----

  datatype Pending = Pending(ts: int, usage: Usage)

  type PendingMap = map<Key, map<nat, Pending>>

  predicate HasPending(pending: PendingMap, key: Key, id: nat) {
    key in pending && id in pending[key]
  }

  ghost function KeySet(keys: seq<Key>): (r: set<Key>)
    ensures forall k :: k in r <==> k in keys
    ensures keys == [] ==> r == {}
  {
    set k | k in keys
  }

  predicate NoDuplicates<T(==)>(s: seq<T>) {
    forall i, j :: 0 <= i < j < |s| ==> s[i] != s[j]
  }

  function SlotCount(inFlight: map<Key, int>, key: Key): int {
    if key in inFlight then inFlight[key] else 0
  }

  /** Only the entries in `kept` keep their status. */
  ghost function Restricted(h: History, offset: int, kept: set<nat>): (r: History)
    ensures |r| == |h|
  {
    seq(|h|, i requires 0 <= i < |h| => if i - offset + 1 >= 0 && i - offset + 1 in kept then h[i] else h[i].(status := Dropped))
  }

  lemma {:induction false} UsageSame(a: History, b: History, span: Span, statuses: set<Status>, counter: Counter)
    requires |a| == |b|
    requires forall i :: 0 <= i < |a| ==> a[i].usage == b[i].usage && (Covers(span, statuses, a[i]) <==> Covers(span, statuses, b[i]))
    ensures UsageIn(a, span, statuses, counter) == UsageIn(b, span, statuses, counter)
  {
    if a != [] {
      UsageSame(a[..|a| - 1], b[..|b| - 1], span, statuses, counter);
    }
  }

  lemma {:induction false} NothingCovered(h: History, span: Span, statuses: set<Status>, counter: Counter)
    requires forall i :: 0 <= i < |h| ==> !Covers(span, statuses, h[i])
    ensures UsageIn(h, span, statuses, counter) == 0
  {
    if h != [] {
      NothingCovered(h[..|h| - 1], span, statuses, counter);
    }
  }

  /** A saturating reading of the five counters over one span. */
  ghost predicate SumsTo(usage: Usage, h: History, span: Span, statuses: set<Status>) {
    forall c: Counter :: Amount(usage, c) == Min(MAX_INT64, UsageIn(h, span, statuses, c))
  }

  // ----- agreement between the engine's fields and the history -----

  /** `offset` entries come from rows already stored; pending id n is entry offset + n - 1. */
  ghost predicate IsPending(h: History, offset: nat, key: Key, id: nat) {
    1 <= id <= |h| - offset && h[offset + id - 1].status == Prepared && key in h[offset + id - 1].counterKeys
  }

  ghost predicate PendingAgrees(pending: PendingMap, h: History, offset: nat) {
    (forall key, id :: HasPending(pending, key, id) <==> IsPending(h, offset, key, id))
    && (forall key, id :: HasPending(pending, key, id)
          ==> pending[key][id] == Pending(h[offset + id - 1].ts, h[offset + id - 1].usage))
    && NoEmpty(pending)
  }

  ghost predicate NoEmpty(pending: PendingMap) {
    forall key :: key in pending ==> pending[key] != map[]
  }

  ghost predicate SlotsAgree(inFlight: map<Key, int>, h: History) {
    (forall key :: SlotCount(inFlight, key) == SlotsHeld(h, key))
    && forall key :: key in inFlight ==> inFlight[key] >= 1
  }

  ghost predicate StoreAgrees(decisions: seq<DecisionRecord>, h: History) {
    SoundStore(decisions)
    && forall key, since, counter ::
         StoredAmount(decisions, key, since, counter) == UsageIn(h, Span(key, since, None), DURABLE, counter)
  }

  /** Pending entries of one reservation leave the map; nothing else does. */
  ghost predicate PendingDropped(before: PendingMap, after: PendingMap, keys: seq<Key>, id: nat) {
    (forall key, i :: HasPending(after, key, i) <==> HasPending(before, key, i) && !(i == id && key in keys))
    && (forall key, i :: HasPending(after, key, i) ==> after[key][i] == before[key][i])
    && (NoEmpty(before) ==> NoEmpty(after))
  }

  lemma NothingDropped(pending: PendingMap, keys: seq<Key>, id: nat)
    requires KeySet(keys) == {}
    ensures PendingDropped(pending, pending, keys, id)
  {
    assert forall k :: k in keys ==> k in KeySet(keys);
  }

  lemma PendingDroppedStep(before: PendingMap, now: PendingMap, keys: seq<Key>, id: nat, key: Key)
    requires PendingDropped(before, now, keys, id)
    ensures key in now ==> var left := now[key] - {id};
              PendingDropped(before, if left == map[] then now - {key} else now[key := left], keys + [key], id)
    ensures key !in now ==> PendingDropped(before, now, keys + [key], id)
  {
    assert forall k :: k in keys + [key] <==> k in keys || k == key;
    if key in now {
      var left := now[key] - {id};
      var after := if left == map[] then now - {key} else now[key := left];
      forall i | HasPending(now, key, i) ensures i == id || HasPending(after, key, i) {
        assert i != id ==> i in left;
      }
      forall k, i
        ensures HasPending(after, k, i) <==> HasPending(before, k, i) && !(i == id && k in keys + [key])
        ensures HasPending(after, k, i) ==> after[k][i] == before[k][i]
      {
        assert HasPending(now, k, i) <==> HasPending(before, k, i) && !(i == id && k in keys);
      }
    } else {
      assert forall i :: !HasPending(now, key, i);
    }
  }

  ghost predicate SlotsDropped(before: map<Key, int>, after: map<Key, int>, keys: seq<Key>) {
    (forall key :: key in before ==> before[key] >= 1) && (forall key :: key in keys ==> SlotCount(before, key) >= 1)
    ==> (forall key :: key in after ==> after[key] >= 1)
        && forall key :: SlotCount(after, key) == SlotCount(before, key) - (if key in keys then 1 else 0)
  }

  lemma PendingAfterStatus(before: PendingMap, after: PendingMap, h: History, offset: nat, id: nat, keys: seq<Key>, status: Status)
    requires PendingAgrees(before, h, offset) && 1 <= id <= |h| - offset
    requires PendingDropped(before, after, keys, id)
    requires KeySet(keys) == (if h[offset + id - 1].status == Prepared then h[offset + id - 1].counterKeys else {})
    requires status != Prepared
    ensures PendingAgrees(after, WithStatus(h, offset + id - 1, status), offset)
  {
    var g := WithStatus(h, offset + id - 1, status);
    forall key, i ensures HasPending(after, key, i) <==> IsPending(g, offset, key, i) {
      assert key in keys <==> key in KeySet(keys);
      assert HasPending(before, key, i) <==> IsPending(h, offset, key, i);
    }
  }

  lemma SlotsAfterClose(before: map<Key, int>, after: map<Key, int>, h: History, index: nat, keys: seq<Key>, status: Status)
    requires SlotsAgree(before, h) && index < |h|
    requires SlotsDropped(before, after, keys)
    requires h[index].status == Prepared || h[index].status == Committed
    requires KeySet(keys) == h[index].slotKeys && (status == Done || status == Dropped)
    ensures SlotsAgree(after, WithStatus(h, index, status))
  {
    forall key ensures key in keys ==> SlotCount(before, key) >= 1 {
      SlotsNonNegative(h, key);
      assert key in keys <==> key in KeySet(keys);
      assert key in keys ==> HoldsSlot(h[index], key);
    }
    forall key ensures SlotCount(after, key) == SlotsHeld(WithStatus(h, index, status), key) {
      SlotsAfterStatus(h, index, status, key);
      assert key in keys <==> key in KeySet(keys);
    }
  }

  lemma SlotsKeptByCommit(inFlight: map<Key, int>, h: History, index: nat)
    requires SlotsAgree(inFlight, h) && index < |h| && h[index].status == Prepared
    ensures SlotsAgree(inFlight, WithStatus(h, index, Committed))
  {
    forall key ensures SlotCount(inFlight, key) == SlotsHeld(WithStatus(h, index, Committed), key) {
      SlotsAfterStatus(h, index, Committed, key);
    }
  }

  lemma StoreAfterPersist(decisions: seq<DecisionRecord>, h: History, index: nat, record: DecisionRecord, admitted: bool)
    requires StoreAgrees(decisions, h) && index < |h| && h[index].status == Prepared && Represents(record, h[index])
    ensures StoreAgrees(decisions + [record.(admitted := admitted, rules := Marked(record.rules, admitted))],
                        WithStatus(h, index, if admitted then Committed else Dropped))
  {
    var written := record.(admitted := admitted, rules := Marked(record.rules, admitted));
    var g := WithStatus(h, index, if admitted then Committed else Dropped);
    forall key, since, counter
      ensures StoredAmount(decisions + [written], key, since, counter) == UsageIn(g, Span(key, since, None), DURABLE, counter)
    {
      assert (decisions + [written])[..|decisions|] == decisions;
      MarkedAmount(record.rules, admitted, key.ruleID, counter);
      UsageAfterStatus(h, index, if admitted then Committed else Dropped, Span(key, since, None), DURABLE, counter);
      assert RecordAmount(record, key, since, counter)
             == if key in h[index].counterKeys && since <= h[index].ts then Amount(h[index].usage, counter) else 0;
    }
  }

  /** Moving between statuses that are both durable, or both not, leaves the stored totals alone. */
  lemma StoreUnmoved(decisions: seq<DecisionRecord>, h: History, index: nat, status: Status)
    requires StoreAgrees(decisions, h) && index < |h| && (h[index].status in DURABLE <==> status in DURABLE)
    ensures StoreAgrees(decisions, WithStatus(h, index, status))
  {
    forall key, since, counter
      ensures StoredAmount(decisions, key, since, counter)
              == UsageIn(WithStatus(h, index, status), Span(key, since, None), DURABLE, counter)
    {
      UsageAfterStatus(h, index, status, Span(key, since, None), DURABLE, counter);
    }
  }

  /** Everything the engine's fields and the stored rows say about the history. */
  ghost predicate Agrees(pending: PendingMap, inFlight: map<Key, int>, decisions: seq<DecisionRecord>, h: History, offset: nat) {
    offset <= |h| && WellFormed(h)
    && (forall i :: 0 <= i < offset ==> h[i].status == Done || h[i].status == Dropped)
    && PendingAgrees(pending, h, offset) && SlotsAgree(inFlight, h) && StoreAgrees(decisions, h)
  }

  function FinalRecord(record: DecisionRecord, admitted: bool): DecisionRecord {
    record.(admitted := admitted, rules := Marked(record.rules, admitted))
  }

  /** What Prepare writes down: one row for every counting rule that applied, accepted or not. */
  function PreparedRecord(policy: Policy, context: Context, now: int, denied: bool): DecisionRecord {
    DecisionRecord(now, policy.namespace, denied, false, CounterRows(ApplicableRules(policy, context), !denied, AdmissionUsage(context)))
  }

  ghost predicate RowOf(rules: seq<Rule>, row: RuleRow, accepted: bool, usage: Usage) {
    row.accepted == accepted && row.usage == usage && Counted(rules, row.ruleID)
  }

  /** One row for each rule that counts, and no others. */
  lemma {:induction false} CounterRowsExactly(rules: seq<Rule>, accepted: bool, usage: Usage)
    requires DistinctIds(rules)
    ensures forall row :: row in CounterRows(rules, accepted, usage) <==> RowOf(rules, row, accepted, usage)
    ensures forall i, j :: 0 <= i < j < |CounterRows(rules, accepted, usage)| ==>
              CounterRows(rules, accepted, usage)[i].ruleID != CounterRows(rules, accepted, usage)[j].ruleID
  {
    hide HasCounters, Counted;
    if rules == [] {
      NothingCounted();
    } else {
      var n := |rules| - 1;
      CounterRowsExactly(rules[..n], accepted, usage);
      var front, rows := CounterRows(rules[..n], accepted, usage), CounterRows(rules, accepted, usage);
      forall ruleID
        ensures Counted(rules, ruleID) <==> Counted(rules[..n], ruleID) || (rules[n].id == ruleID && HasCounters(rules[n]))
      {
        CountedStep(rules, ruleID);
      }
      LastUncounted(rules);
      forall i | 0 <= i < |front| ensures front[i].ruleID != rules[n].id {
        assert front[i] in front && RowOf(rules[..n], front[i], accepted, usage);
      }
      assert rows == front + if HasCounters(rules[n]) then [RuleRow(rules[n].id, accepted, usage)] else [];
    }
  }

  lemma NothingCounted()
    ensures forall ruleID :: !Counted([], ruleID)
  {
  }

  lemma LastUncounted(rules: seq<Rule>)
    requires rules != [] && DistinctIds(rules)
    ensures !Counted(rules[..|rules| - 1], rules[|rules| - 1].id)
  {
    hide HasCounters;
  }

  /** Some applicable rule with this id counts. */
  ghost predicate CountsFor(policy: Policy, context: Context, ruleID: string) {
    exists rule :: rule in policy.rules && Applies(policy, rule, context) && HasCounters(rule) && rule.id == ruleID
  }

  lemma CountedApplies(policy: Policy, context: Context, ruleID: string)
    ensures Counted(ApplicableRules(policy, context), ruleID) <==> CountsFor(policy, context, ruleID)
  {
    hide Applies, ApplicableRules, HasCounters;
    var rules := ApplicableRules(policy, context);
    if Counted(rules, ruleID) {
      var i :| 0 <= i < |rules| && rules[i].id == ruleID && HasCounters(rules[i]);
      ApplicableMember(policy, context, rules[i]);
    }
    if rule :| rule in policy.rules && Applies(policy, rule, context) && HasCounters(rule) && rule.id == ruleID {
      ApplicableMember(policy, context, rule);
      var i :| 0 <= i < |rules| && rules[i] == rule;
    }
  }

  /** What a decision writes down: when and where it was taken and whether it denied, and for each
      counting rule that applied one row with the request's measure, accepted exactly if it did not. */
  lemma RecordExactly(policy: Policy, context: Context, now: int, denied: bool, row: RuleRow)
    requires ValidPolicy(policy)
    ensures var r := PreparedRecord(policy, context, now, denied);
            r.ts == now && r.namespace == policy.namespace && r.denied == denied && !r.admitted
            && (row in r.rules ==> row.accepted == !denied && Measures(context, row.usage) && CountsFor(policy, context, row.ruleID))
            && (CountsFor(policy, context, row.ruleID) ==> exists i :: 0 <= i < |r.rules| && r.rules[i].ruleID == row.ruleID)
            && (forall i, j :: 0 <= i < j < |r.rules| ==> r.rules[i].ruleID != r.rules[j].ruleID)
  {
    MeasureTaken(context);
    hide CountsFor, ApplicableRules, CounterRows, AdmissionUsage, Measures, ValidPolicy, DistinctIds, Counted;
    var rules, usage := ApplicableRules(policy, context), AdmissionUsage(context);
    ApplicableDistinct(policy, context);
    CounterRowsExactly(rules, !denied, usage);
    CountedApplies(policy, context, row.ruleID);
    if Counted(rules, row.ruleID) {
      assert RowOf(rules, RuleRow(row.ruleID, !denied, usage), !denied, usage);
    }
  }

  lemma MeasureTaken(context: Context)
    ensures Measures(context, AdmissionUsage(context))
  {
    hide ConservativeCostMicroUSD;
  }

  lemma AgreesAfterCommit(before: PendingMap, after: PendingMap, inFlight: map<Key, int>, decisions: seq<DecisionRecord>,
                          h: History, offset: nat, id: nat, keys: seq<Key>, record: DecisionRecord)
    requires Agrees(before, inFlight, decisions, h, offset) && 1 <= id <= |h| - offset
    requires h[offset + id - 1].status == Prepared && KeySet(keys) == h[offset + id - 1].counterKeys
    requires PendingDropped(before, after, keys, id) && Represents(record, h[offset + id - 1])
    ensures Agrees(after, inFlight, decisions + [FinalRecord(record, true)], WithStatus(h, offset + id - 1, Committed), offset)
  {
    hide PendingAgrees, SlotsAgree, StoreAgrees, PendingDropped, Represents, Marked;
    PendingAfterStatus(before, after, h, offset, id, keys, Committed);
    SlotsKeptByCommit(inFlight, h, offset + id - 1);
    StoreAfterPersist(decisions, h, offset + id - 1, record, true);
  }

  /** Closing gives back what is pending and every slot. */
  lemma AgreesAfterClose(before: PendingMap, after: PendingMap, slotsBefore: map<Key, int>, slotsAfter: map<Key, int>,
                         decisions: seq<DecisionRecord>, h: History, offset: nat, id: nat,
                         keys: seq<Key>, slotKeys: seq<Key>, status: Status)
    requires Agrees(before, slotsBefore, decisions, h, offset) && 1 <= id <= |h| - offset
    requires h[offset + id - 1].status == (if status == Dropped then Prepared else Committed) && (status == Dropped || status == Done)
    requires KeySet(keys) == (if status == Dropped then h[offset + id - 1].counterKeys else {})
    requires KeySet(slotKeys) == h[offset + id - 1].slotKeys
    requires PendingDropped(before, after, keys, id) && SlotsDropped(slotsBefore, slotsAfter, slotKeys)
    ensures Agrees(after, slotsAfter, decisions, WithStatus(h, offset + id - 1, status), offset)
  {
    hide PendingAgrees, SlotsAgree, StoreAgrees, PendingDropped, SlotsDropped;
    PendingAfterStatus(before, after, h, offset, id, keys, status);
    SlotsAfterClose(slotsBefore, slotsAfter, h, offset + id - 1, slotKeys, status);
    StoreUnmoved(decisions, h, offset + id - 1, status);
  }

  /** Writing a rejected record changes no total. */
  lemma AgreesAfterRejection(pending: PendingMap, inFlight: map<Key, int>, decisions: seq<DecisionRecord>,
                             h: History, offset: nat, record: DecisionRecord)
    requires Agrees(pending, inFlight, decisions, h, offset) && SoundRows(record.rules)
    ensures Agrees(pending, inFlight, decisions + [FinalRecord(record, false)], h, offset)
  {
    hide PendingAgrees, SlotsAgree, StoreAgrees;
    StoreAfterDenial(decisions, h, FinalRecord(record, false));
  }

  // ----- a new reservation -----

  lemma TwiceCounted<T>(s: seq<T>, i: nat, j: nat)
    requires i < j < |s| && s[i] == s[j]
    ensures multiset(s)[s[i]] >= 2
  {
    assert s == s[..j] + s[j..];
    assert s[i] in s[..j] && s[j..][0] == s[j];
  }

  lemma OnceCounted<T>(s: seq<T>, k: nat)
    requires k < |s| && NoDuplicates(s)
    ensures multiset(s)[s[k]] == 1
  {
    assert s == s[..k] + [s[k]] + s[k + 1..];
    assert s[k] !in s[..k] && s[k] !in s[k + 1..];
  }

  lemma ApplicableDistinct(policy: Policy, context: Context)
    requires ValidPolicy(policy)
    ensures DistinctIds(ApplicableRules(policy, context))
  {
    hide Applies, SelectApplicable, NarrowerFirst, ValidRule;
    var rules := ApplicableRules(policy, context);
    forall i, j | 0 <= i < j < |rules| ensures rules[i].id != rules[j].id {
      ApplicableMember(policy, context, rules[i]);
      ApplicableMember(policy, context, rules[j]);
      if rules[i].id == rules[j].id {
        var k :| 0 <= k < |policy.rules| && policy.rules[k] == rules[i];
        OnceCounted(policy.rules, k);
        assert multiset(rules)[rules[i]] <= multiset(policy.rules)[rules[i]];
        TwiceCounted(rules, i, j);
      }
    }
  }

  lemma CountedIsCounterKey(policy: Policy, context: Context, key: Key)
    ensures key in CounterKeys(policy, context)
            <==> key.namespace == policy.namespace && Counted(ApplicableRules(policy, context), key.ruleID)
  {
    hide ApplicableRules, HasCounters;
    var rules := ApplicableRules(policy, context);
    if key in CounterKeys(policy, context) {
      var rule :| rule in rules && HasCounters(rule) && key == RuleKey(policy, rule);
      var i :| 0 <= i < |rules| && rules[i] == rule;
      assert rules[i].id == key.ruleID && HasCounters(rules[i]);
    }
    if key.namespace == policy.namespace && Counted(rules, key.ruleID) {
      var i :| 0 <= i < |rules| && rules[i].id == key.ruleID && HasCounters(rules[i]);
      assert rules[i] in rules && key == RuleKey(policy, rules[i]);
    }
  }

  lemma RecordRepresents(policy: Policy, context: Context, now: int, record: DecisionRecord)
    requires ValidPolicy(policy) && !BadEstimate(context)
    requires record.ts == now && record.namespace == policy.namespace
    requires record.rules == CounterRows(ApplicableRules(policy, context), true, AdmissionUsage(context))
    ensures Represents(record, NewEntry(policy, context, now))
  {
    hide ApplicableRules, AdmissionUsage, CounterRows, CounterKeys, ValidPolicy, SoundRows, RowsAmount, SlotKeys;
    var rules := ApplicableRules(policy, context);
    ApplicableDistinct(policy, context);
    UsageSound(context);
    CounterRowsSound(rules, true, AdmissionUsage(context));
    CounterRowsAccepted(rules, true, AdmissionUsage(context));
    forall key: Key, since: int, counter: Counter
      ensures RecordAmount(record, key, since, counter)
              == if key in CounterKeys(policy, context) && since <= now then Amount(AdmissionUsage(context), counter) else 0
    {
      CountedIsCounterKey(policy, context, key);
      CounterRowsAmount(rules, true, AdmissionUsage(context), key.ruleID, counter);
    }
  }

  lemma UsageSound(context: Context)
    requires !BadEstimate(context)
    ensures NonNegative(AdmissionUsage(context))
  {
  }

  lemma {:induction false} CounterRowsAccepted(rules: seq<Rule>, accepted: bool, usage: Usage)
    ensures forall i :: 0 <= i < |CounterRows(rules, accepted, usage)| ==> CounterRows(rules, accepted, usage)[i].accepted == accepted
  {
    if rules != [] {
      CounterRowsAccepted(rules[..|rules| - 1], accepted, usage);
    }
  }

  /** A new pending id is added under exactly the given keys. */
  ghost predicate PendingAdded(before: PendingMap, after: PendingMap, keys: seq<Key>, id: nat, item: Pending) {
    (forall key, i :: HasPending(after, key, i) <==> HasPending(before, key, i) || (i == id && key in keys))
    && (forall key, i :: HasPending(after, key, i) ==>
          if i == id && key in keys then after[key][i] == item
          else HasPending(before, key, i) && after[key][i] == before[key][i])
    && (NoEmpty(before) ==> NoEmpty(after))
  }

  ghost predicate SlotsAdded(before: map<Key, int>, after: map<Key, int>, keys: seq<Key>) {
    (forall key :: SlotCount(after, key) == SlotCount(before, key) + (if key in keys then 1 else 0))
    && ((forall key :: key in before ==> before[key] >= 1) ==> forall key :: key in after ==> after[key] >= 1)
  }

  lemma PendingAfterAppend(before: PendingMap, after: PendingMap, h: History, offset: nat, keys: seq<Key>, e: Entry)
    requires PendingAgrees(before, h, offset) && offset <= |h|
    requires PendingAdded(before, after, keys, |h| - offset + 1, Pending(e.ts, e.usage))
    requires KeySet(keys) == e.counterKeys && e.status == Prepared
    ensures PendingAgrees(after, h + [e], offset)
  {
    forall key, i ensures HasPending(after, key, i) <==> IsPending(h + [e], offset, key, i) {
      assert HasPending(before, key, i) <==> IsPending(h, offset, key, i);
    }
  }

  lemma SlotsAfterAppend(before: map<Key, int>, after: map<Key, int>, h: History, keys: seq<Key>, e: Entry)
    requires SlotsAgree(before, h) && SlotsAdded(before, after, keys)
    requires KeySet(keys) == e.slotKeys && e.status == Prepared
    ensures SlotsAgree(after, h + [e])
  {
    forall key ensures SlotCount(after, key) == SlotsHeld(h + [e], key) {
      SlotsAppend(h, e, key);
    }
  }

  /** Neither a pending entry nor rows that were not accepted change the stored totals. */
  lemma StoreAfterAppend(decisions: seq<DecisionRecord>, h: History, e: Entry)
    requires StoreAgrees(decisions, h) && e.status == Prepared
    ensures StoreAgrees(decisions, h + [e])
  {
    forall key, since, counter
      ensures StoredAmount(decisions, key, since, counter) == UsageIn(h + [e], Span(key, since, None), DURABLE, counter)
    {
      UsageAppend(h, e, Span(key, since, None), DURABLE, counter);
    }
  }

  lemma StoreAfterDenial(decisions: seq<DecisionRecord>, h: History, record: DecisionRecord)
    requires StoreAgrees(decisions, h) && SoundRows(record.rules)
    requires forall i :: 0 <= i < |record.rules| ==> !record.rules[i].accepted
    ensures StoreAgrees(decisions + [record], h)
  {
    forall key, since, counter
      ensures StoredAmount(decisions + [record], key, since, counter) == UsageIn(h, Span(key, since, None), DURABLE, counter)
    {
      assert (decisions + [record])[..|decisions|] == decisions;
      RejectedRows(record.rules, key.ruleID, counter);
    }
  }

  lemma {:induction false} RejectedRows(rows: seq<RuleRow>, ruleID: string, counter: Counter)
    requires forall i :: 0 <= i < |rows| ==> !rows[i].accepted
    ensures RowsAmount(rows, ruleID, counter) == 0
  {
    if rows != [] {
      RejectedRows(rows[..|rows| - 1], ruleID, counter);
    }
  }

  // ----- reading pending usage -----

  lemma PendingPicked(h: History, offset: nat, kept: set<nat>, key: Key, id: nat, cutoff: int, counter: Counter)
    requires WellFormed(h) && id !in kept && IsPending(h, offset, key, id)
    ensures 0 <= offset + id - 1 < |h|
    ensures UsageIn(Restricted(h, offset, kept), Span(key, cutoff, None), PENDING, counter) >= 0
    ensures Amount(h[offset + id - 1].usage, counter) >= 0
    ensures UsageIn(Restricted(h, offset, kept + {id}), Span(key, cutoff, None), PENDING, counter)
            == UsageIn(Restricted(h, offset, kept), Span(key, cutoff, None), PENDING, counter)
               + (if cutoff <= h[offset + id - 1].ts then Amount(h[offset + id - 1].usage, counter) else 0)
  {
    var r := Restricted(h, offset, kept);
    var index := offset + id - 1;
    assert WellFormed(r);
    UsageNonNegative(r, Span(key, cutoff, None), PENDING, counter);
    AmountNonNegative(h[index].usage, counter);
    assert Restricted(h, offset, kept + {id}) == WithStatus(r, index, Prepared);
    UsageAfterStatus(r, index, Prepared, Span(key, cutoff, None), PENDING, counter);
  }

  lemma PendingInRange(h: History, offset: nat, key: Key, id: nat)
    requires IsPending(h, offset, key, id)
    ensures 0 <= offset + id - 1 < |h|
  {
  }

  lemma NonePicked(h: History, offset: nat, key: Key, cutoff: int, counter: Counter)
    ensures UsageIn(Restricted(h, offset, {}), Span(key, cutoff, None), PENDING, counter) == 0
  {
    NothingCovered(Restricted(h, offset, {}), Span(key, cutoff, None), PENDING, counter);
  }

  lemma AllPicked(h: History, offset: nat, all: set<nat>, key: Key, cutoff: int, counter: Counter)
    requires offset <= |h| && forall i :: 0 <= i < offset ==> h[i].status == Done || h[i].status == Dropped
    requires forall id: nat :: id in all <==> IsPending(h, offset, key, id)
    ensures UsageIn(Restricted(h, offset, all), Span(key, cutoff, None), PENDING, counter)
            == UsageIn(h, Span(key, cutoff, None), PENDING, counter)
  {
    var r := Restricted(h, offset, all);
    forall i | 0 <= i < |h|
      ensures Covers(Span(key, cutoff, None), PENDING, r[i]) <==> Covers(Span(key, cutoff, None), PENDING, h[i])
    {
      if i >= offset && h[i].status == Prepared && key in h[i].counterKeys {
        assert IsPending(h, offset, key, i - offset + 1);
      }
    }
    UsageSame(r, h, Span(key, cutoff, None), PENDING, counter);
  }

  lemma NothingSums(h: History, offset: nat, key: Key, cutoff: int)
    ensures SumsTo(NO_USAGE, Restricted(h, offset, {}), Span(key, cutoff, None), PENDING)
  {
    hide Restricted, UsageIn;
    forall c: Counter { NonePicked(h, offset, key, cutoff, c); }
  }

  lemma PickedSums(usage: Usage, h: History, offset: nat, kept: set<nat>, key: Key, id: nat, cutoff: int)
    requires WellFormed(h) && id !in kept && IsPending(h, offset, key, id)
    requires SumsTo(usage, Restricted(h, offset, kept), Span(key, cutoff, None), PENDING)
    ensures 0 <= offset + id - 1 < |h|
    ensures SumsTo(if cutoff <= h[offset + id - 1].ts then SaturatedUsage(usage, h[offset + id - 1].usage) else usage,
                   Restricted(h, offset, kept + {id}), Span(key, cutoff, None), PENDING)
  {
    hide Restricted, UsageIn, SaturatedUsage;
    forall c: Counter { PendingPicked(h, offset, kept, key, id, cutoff, c); }
  }

  lemma AllSums(usage: Usage, h: History, offset: nat, all: set<nat>, key: Key, cutoff: int)
    requires offset <= |h| && forall i :: 0 <= i < offset ==> h[i].status == Done || h[i].status == Dropped
    requires forall id: nat :: id in all <==> IsPending(h, offset, key, id)
    requires SumsTo(usage, Restricted(h, offset, all), Span(key, cutoff, None), PENDING)
    ensures SumsTo(usage, h, Span(key, cutoff, None), PENDING)
  {
    hide Restricted, UsageIn, IsPending;
    forall c: Counter { AllPicked(h, offset, all, key, cutoff, c); }
  }

  // ----- reservations and the engine -----

  datatype PrepareResult =
    | Failed
    | NoActivePolicy
    | DeniedBy(decision: Decision)
    | AdmittedWith(reservation: Reservation, decision: Decision)

  class Reservation {
    const engine: Engine
    const record: DecisionRecord
    const pendingID: nat
    var counterKeys: seq<Key>
    var slotKeys: seq<Key>
    var state: int  // 0 prepared, 1 committed and in flight, 2 closed

    constructor (engine: Engine, record: DecisionRecord, pendingID: nat, counterKeys: seq<Key>, slotKeys: seq<Key>)
      ensures this.engine == engine && this.record == record && this.pendingID == pendingID
      ensures this.counterKeys == counterKeys && this.slotKeys == slotKeys && state == 0
    {
      this.engine := engine;
      this.record := record;
      this.pendingID := pendingID;
      this.counterKeys := counterKeys;
      this.slotKeys := slotKeys;
      state := 0;
    }

    /** Position of this reservation in the engine's history. */
    ghost function Index(): int {
      engine.offset + pendingID - 1
    }

    ghost predicate Issued()
      reads engine
    {
      1 <= pendingID <= |engine.issued| && engine.issued[pendingID - 1] == this
    }

    /** Follows entry `e`: open keys are listed once each, closed ones not at all. */
    ghost predicate Tracks(e: Entry)
      reads this
    {
      (state == 0 <==> e.status == Prepared) && (state == 1 <==> e.status == Committed) && 0 <= state <= 2
      && Represents(record, e)
      && NoDuplicates(counterKeys) && KeySet(counterKeys) == (if state == 0 then e.counterKeys else {})
      && NoDuplicates(slotKeys) && KeySet(slotKeys) == (if state == 2 then {} else e.slotKeys)
    }

    method ReleasePendingLocked()
      modifies this`counterKeys, engine`pending
      ensures counterKeys == []
      ensures PendingDropped(old(engine.pending), engine.pending, old(counterKeys), pendingID)
    {
      hide PendingDropped, NoEmpty;
      NothingDropped(engine.pending, [], pendingID);
      for n := 0 to |counterKeys|
        invariant counterKeys == old(counterKeys)
        invariant PendingDropped(old(engine.pending), engine.pending, counterKeys[..n], pendingID)
      {
        var key := counterKeys[n];
        PendingDroppedStep(old(engine.pending), engine.pending, counterKeys[..n], pendingID, key);
        assert counterKeys[..n + 1] == counterKeys[..n] + [key];
        if key in engine.pending {
          var left := engine.pending[key] - {pendingID};
          engine.pending := if left == map[] then engine.pending - {key} else engine.pending[key := left];
        }
      }
      assert counterKeys[..|counterKeys|] == counterKeys;
      counterKeys := [];
    }

    method ReleaseConcurrencyLocked()
      requires NoDuplicates(slotKeys)
      modifies this`slotKeys, engine`inFlight
      ensures slotKeys == []
      ensures SlotsDropped(old(engine.inFlight), engine.inFlight, old(slotKeys))
    {
      ghost var before := engine.inFlight;
      ghost var sane := (forall key :: key in before ==> before[key] >= 1)
                        && (forall key :: key in slotKeys ==> SlotCount(before, key) >= 1);
      for n := 0 to |slotKeys|
        invariant slotKeys == old(slotKeys)
        invariant sane ==> forall key :: key in engine.inFlight ==> engine.inFlight[key] >= 1
        invariant sane ==> forall key :: SlotCount(engine.inFlight, key)
                             == SlotCount(before, key) - (if key in slotKeys[..n] then 1 else 0)
      {
        var key := slotKeys[n];
        assert forall k :: k in slotKeys[..n + 1] <==> k in slotKeys[..n] || k == key;
        assert key !in slotKeys[..n];
        if SlotCount(engine.inFlight, key) <= 1 {
          engine.inFlight := engine.inFlight - {key};
        } else {
          engine.inFlight := engine.inFlight[key := engine.inFlight[key] - 1];
        }
      }
      assert slotKeys[..|slotKeys|] == slotKeys;
      slotKeys := [];
    }

    /** Writes the decision with its final admission mark. */
    method PersistLocked(admitted: bool, storeOk: bool) returns (ok: bool)
      modifies engine.store
      ensures ok == storeOk
      ensures engine.store.decisions
              == if storeOk then old(engine.store.decisions) + [FinalRecord(record, admitted)] else old(engine.store.decisions)
    {
      ok := engine.store.InsertPolicyDecision(FinalRecord(record, admitted), storeOk);
    }

    method Commit(storeOk: bool) returns (ok: bool)
      requires engine.Valid() && Issued()
      modifies this, engine, engine.store
      ensures engine.Valid() && engine.issued == old(engine.issued)
      ensures engine.history == Next(old(engine.history), Step.Commit(Index(), storeOk))
      ensures ok <==> old(state) == 1 || (old(state) == 0 && storeOk)
      ensures engine.store.decisions == old(engine.store.decisions) + (if old(state) == 0 && storeOk then [FinalRecord(record, true)] else [])
    {
      Unpack(engine.history[Index()]);
      hide engine.Valid, Admits, NewEntry;
      if state == 1 {
        return true;
      }
      if state == 2 {
        return false;
      }
      ok := CommitPrepared(storeOk);
    }

    method CommitPrepared(storeOk: bool) returns (ok: bool)
      requires engine.Valid() && Issued() && state == 0
      modifies this, engine, engine.store
      ensures engine.Valid() && engine.issued == old(engine.issued) && ok == storeOk
      ensures engine.store.decisions == old(engine.store.decisions) + (if storeOk then [FinalRecord(record, true)] else [])
      ensures engine.history == WithStatus(old(engine.history), Index(), if storeOk then Committed else Dropped)
    {
      Unpack(engine.history[Index()]);
      hide Agrees, FinalRecord, Tracks, Represents;
      ok := PersistLocked(true, storeOk);
      if ok {
        TakeFlight(old(engine.store.decisions));
      } else {
        Close(Dropped);
      }
    }

    /** The accepted rows are stored: what was pending is now durable. */
    method TakeFlight(ghost stored: seq<DecisionRecord>)
      requires 0 <= Index() < |engine.history| && 1 <= pendingID
      requires Represents(record, engine.history[Index()]) && NoDuplicates(slotKeys)
      requires engine.history[Index()].status == Prepared
      requires KeySet(counterKeys) == engine.history[Index()].counterKeys && KeySet(slotKeys) == engine.history[Index()].slotKeys
      requires Agrees(engine.pending, engine.inFlight, stored, engine.history, engine.offset)
      requires engine.store.decisions == stored + [FinalRecord(record, true)]
      modifies this`state, this`counterKeys, engine`pending, engine`history
      ensures engine.history == WithStatus(old(engine.history), Index(), Committed)
      ensures Agrees(engine.pending, engine.inFlight, engine.store.decisions, engine.history, engine.offset)
      ensures Tracks(engine.history[Index()])
    {
      hide Agrees, PendingDropped, Represents, FinalRecord, Tracks, NoDuplicates;
      ReleasePendingLocked();
      state := 1;
      AgreesAfterCommit(old(engine.pending), engine.pending, engine.inFlight, stored,
                        engine.history, engine.offset, pendingID, old(counterKeys), record);
      engine.history := WithStatus(engine.history, Index(), Committed);
      Repack(old(engine.history[Index()]), Committed);
    }

    method Cancel(storeOk: bool) returns (ok: bool)
      requires engine.Valid() && Issued()
      modifies this, engine, engine.store
      ensures engine.Valid() && engine.issued == old(engine.issued)
      ensures engine.history == Next(old(engine.history), Step.Cancel(Index()))
      ensures ok <==> old(state) != 0 || storeOk
      ensures engine.store.decisions == old(engine.store.decisions) + (if old(state) == 0 && storeOk then [FinalRecord(record, false)] else [])
    {
      Unpack(engine.history[Index()]);
      hide Agrees, Admits, NewEntry, engine.IssuedTrack, FinalRecord;
      if state != 0 {
        return true;
      }
      ok := PersistLocked(false, storeOk);
      AgreesAfterRejection(engine.pending, engine.inFlight, old(engine.store.decisions), engine.history, engine.offset, record);
      Close(Dropped);
    }

    method Release()
      requires engine.Valid() && Issued()
      modifies this, engine
      ensures engine.Valid() && engine.issued == old(engine.issued)
      ensures engine.history == Next(old(engine.history), Step.Release(Index()))
    {
      Unpack(engine.history[Index()]);
      hide engine.Valid, Admits, NewEntry;
      if state == 2 {
        return;
      }
      Close(if state == 0 then Dropped else Done);
    }

    method Close(ghost status: Status)
      requires engine.Valid() && Issued() && (state == 0 || state == 1)
      requires status == if state == 0 then Dropped else Done
      modifies this, engine
      ensures engine.Valid() && engine.issued == old(engine.issued)
      ensures engine.history == WithStatus(old(engine.history), Index(), status)
    {
      Unpack(engine.history[Index()]);
      hide Agrees, Tracks, Represents;
      GiveBack(status);
    }

    /** Gives back the pending entry, when there still is one, and the slots. */
    method GiveBack(ghost status: Status)
      requires 0 <= Index() < |engine.history| && 1 <= pendingID && (state == 0 || state == 1)
      requires Represents(record, engine.history[Index()]) && NoDuplicates(slotKeys)
      requires status == if state == 0 then Dropped else Done
      requires engine.history[Index()].status == if state == 0 then Prepared else Committed
      requires KeySet(counterKeys) == (if state == 0 then engine.history[Index()].counterKeys else {})
      requires KeySet(slotKeys) == engine.history[Index()].slotKeys && (state == 1 ==> counterKeys == [])
      requires Agrees(engine.pending, engine.inFlight, engine.store.decisions, engine.history, engine.offset)
      modifies this, engine`pending, engine`inFlight, engine`history
      ensures engine.history == WithStatus(old(engine.history), Index(), status)
      ensures Agrees(engine.pending, engine.inFlight, engine.store.decisions, engine.history, engine.offset)
      ensures Tracks(engine.history[Index()])
    {
      hide Agrees, PendingDropped, SlotsDropped, Represents, Tracks, NoDuplicates;
      if state == 0 {
        ReleasePendingLocked();
      } else {
        NothingDropped(engine.pending, counterKeys, pendingID);
      }
      ReleaseConcurrencyLocked();
      state := 2;
      AgreesAfterClose(old(engine.pending), engine.pending, old(engine.inFlight), engine.inFlight, engine.store.decisions,
                       engine.history, engine.offset, pendingID, old(counterKeys), old(slotKeys), status);
      engine.history := WithStatus(engine.history, Index(), status);
      NoDuplicatesEmpty();
      Repack(old(engine.history[Index()]), status);
    }

    lemma NoDuplicatesEmpty()
      ensures NoDuplicates<Key>([])
    {
    }

    lemma Unpack(e: Entry)
      requires Issued() && engine.IssuedTrack() && e == engine.history[Index()]
      ensures (state == 0 <==> e.status == Prepared) && (state == 1 <==> e.status == Committed) && 0 <= state <= 2
      ensures Represents(record, e) && SoundRows(record.rules) && NoDuplicates(slotKeys) && NoDuplicates(counterKeys)
      ensures KeySet(counterKeys) == (if state == 0 then e.counterKeys else {})
      ensures KeySet(slotKeys) == (if state == 2 then {} else e.slotKeys)
      ensures state != 0 ==> counterKeys == []
    {
      hide Agrees;
      assert counterKeys != [] ==> counterKeys[0] in KeySet(counterKeys);
      assert Tracks(engine.history[engine.offset + (pendingID - 1)]);
    }

    lemma Repack(e: Entry, status: Status)
      requires Represents(record, e) && counterKeys == [] && NoDuplicates(slotKeys)
      requires (state == 1 && status == Committed && KeySet(slotKeys) == e.slotKeys)
               || (state == 2 && (status == Done || status == Dropped) && slotKeys == [])
      ensures Tracks(e.(status := status))
    {
      hide Represents;
      RepresentsAtAnyStatus(record, e, status);
    }
  }

  class Engine {
    const store: Store
    var inFlight: map<Key, int>
    var pending: PendingMap
    var nextPending: nat

    ghost var history: History
    ghost var issued: seq<Reservation>
    ghost const offset: nat  // entries carried over from rows already stored

    ghost predicate Valid()
      reads this, store, issued
    {
      nextPending == |issued| && IssuedTrack() && Agrees(pending, inFlight, store.decisions, history, offset)
    }

    /** Every reservation handed out is still in step with its entry. */
    ghost predicate IssuedTrack()
      reads this, issued
    {
      offset + |issued| == |history|
      && forall i :: 0 <= i < |issued| ==>
           issued[i].engine == this && issued[i].pendingID == i + 1 && issued[i].Tracks(history[offset + i])
    }

    constructor (store: Store)
      requires SoundStore(store.decisions)
      ensures Valid() && this.store == store && issued == []
      ensures history == Past(store.decisions)
    {
      this.store := store;
      inFlight := map[];
      pending := map[];
      nextPending := 0;
      history := Past(store.decisions);
      issued := [];
      offset := |Past(store.decisions)|;
      new;
      PastUsage(store.decisions, Key("", ""), 0, Requests);
      forall key ensures SlotsHeld(history, key) == 0 {
        SlotsNonNegative(history, key);
      }
      forall key, since, counter
        ensures StoredAmount(store.decisions, key, since, counter) == UsageIn(history, Span(key, since, None), DURABLE, counter)
      {
        PastUsage(store.decisions, key, since, counter);
      }
    }

    /** Pending usage of one rule since a cutoff; the map's order does not matter because a
        saturating sum of non-negative amounts is the smaller of the exact sum and the maximum. */
    method PendingSince(key: Key, cutoff: int) returns (usage: Usage)
      requires Valid()
      ensures SumsTo(usage, history, Span(key, cutoff, None), PENDING)
    {
      hide SlotsAgree, StoreAgrees, UsageIn, IsPending;
      var items := if key in pending then pending[key] else map[];
      forall id: nat ensures id in items <==> IsPending(history, offset, key, id) {
        assert HasPending(pending, key, id) <==> IsPending(history, offset, key, id);
      }
      forall id | id in items
        ensures 0 <= offset + id - 1 < |history| && items[id] == Pending(history[offset + id - 1].ts, history[offset + id - 1].usage)
      {
        assert HasPending(pending, key, id);
        PendingInRange(history, offset, key, id);
      }
      usage := SumPending(items, cutoff, history, offset, key);
    }

    static method SumPending(items: map<nat, Pending>, cutoff: int, ghost h: History, ghost offset: nat, ghost key: Key)
      returns (usage: Usage)
      requires WellFormed(h) && offset <= |h|
      requires forall i :: 0 <= i < offset ==> h[i].status == Done || h[i].status == Dropped
      requires forall id: nat :: id in items <==> IsPending(h, offset, key, id)
      requires forall id :: id in items ==>
                 0 <= offset + id - 1 < |h| && items[id] == Pending(h[offset + id - 1].ts, h[offset + id - 1].usage)
      ensures SumsTo(usage, h, Span(key, cutoff, None), PENDING)
    {
      hide Restricted, IsPending, WellFormed, SumsTo;
      usage := NO_USAGE;
      var left := items.Keys;
      ghost var kept: set<nat> := {};
      NothingSums(h, offset, key, cutoff);
      while left != {}
        invariant left <= items.Keys && kept == items.Keys - left
        invariant SumsTo(usage, Restricted(h, offset, kept), Span(key, cutoff, None), PENDING)
        decreases |left|
      {
        var id :| id in left;
        var item := items[id];
        PickedSums(usage, h, offset, kept, key, id, cutoff);
        if cutoff <= item.ts {
          usage := SaturatedUsage(usage, item.usage);
        }
        left := left - {id};
        kept := kept + {id};
      }
      assert kept == items.Keys;
      AllSums(usage, h, offset, kept, key, cutoff);
    }

    /** Durable and pending usage of a rule since a cutoff, as every limit check reads it. */
    method WindowUsage(policy: Policy, rule: Rule, cutoff: int) returns (usage: Usage)
      requires Valid()
      ensures forall c: Counter :: Amount(usage, c) == Current(history, RuleKey(policy, rule), cutoff, c, false)
    {
      hide PendingAgrees, SlotsAgree, UsageIn;
      var stored := store.PolicyRuleUsageSince(policy.namespace, rule.id, cutoff);
      var waiting := PendingSince(RuleKey(policy, rule), cutoff);
      usage := SaturatedUsage(stored, waiting);
      forall c: Counter
        ensures Amount(usage, c) == Current(history, RuleKey(policy, rule), cutoff, c, false)
      {
        var span := Span(RuleKey(policy, rule), cutoff, None);
        UsageSplits(history, span, c);
        UsageNonNegative(history, span, DURABLE, c);
        UsageNonNegative(history, span, PENDING, c);
      }
    }

    method RequestFindings(policy: Policy, rule: Rule, now: int) returns (found: seq<Violation>)
      requires Valid() && ValidRule(policy, rule)
      ensures found == RequestViolations(rule.limits.requests, RuleKey(policy, rule), now, history, false)
    {
      hide Valid, Current;
      var limits := rule.limits.requests;
      found := [];
      for i := 0 to |limits|
        invariant found == RequestViolations(limits[..i], RuleKey(policy, rule), now, history, false)
      {
        assert limits[..i + 1][..i] == limits[..i];
        var cutoff := WindowStart(now, limits[i].window, limits[i].windowType);
        var usage := WindowUsage(policy, rule, cutoff);
        assert usage.requests == Amount(usage, Requests);
        if usage.requests >= limits[i].max {
          found := found + [Violation(RequestLimit, "requests", limits[i].id)];
        }
      }
      assert limits[..|limits|] == limits;
    }

    method TokenFindings(policy: Policy, rule: Rule, context: Context, now: int) returns (found: seq<Violation>)
      requires Valid() && ValidRule(policy, rule)
      ensures found == TokenViolations(rule.limits.tokens, context, RuleKey(policy, rule), now, history, false)
    {
      hide Valid, Current, EstimatedTokensForKind;
      var limits := rule.limits.tokens;
      found := [];
      for i := 0 to |limits|
        invariant found == TokenViolations(limits[..i], context, RuleKey(policy, rule), now, history, false)
      {
        assert limits[..i + 1][..i] == limits[..i];
        var requested := EstimatedTokensForKind(context, limits[i].kind);
        if requested.Some? {
          var cutoff := WindowStart(now, limits[i].window, limits[i].windowType);
          var usage := WindowUsage(policy, rule, cutoff);
          var current := Amount(usage, KindCounter(limits[i].kind));
          if current > limits[i].max - requested.value {
            found := found + [Violation(TokenLimit, KindName(limits[i].kind), limits[i].id)];
          }
        }
      }
      assert limits[..|limits|] == limits;
    }

    method DollarFindings(policy: Policy, rule: Rule, context: Context, now: int) returns (found: seq<Violation>)
      requires Valid() && ValidRule(policy, rule)
      ensures found == DollarViolations(rule.limits.dollars, context, RuleKey(policy, rule), now, history, false)
    {
      hide Valid, Current;
      var limits := rule.limits.dollars;
      var cost := ConservativeCostMicroUSD(context);
      found := [];
      for i := 0 to |limits|
        invariant found == DollarViolations(limits[..i], context, RuleKey(policy, rule), now, history, false)
      {
        assert limits[..i + 1][..i] == limits[..i];
        if cost.None? {
          found := found + [Violation(EstimatedCostUnknown, "dollars", limits[i].id)];
        } else {
          var cutoff := WindowStart(now, limits[i].window, limits[i].windowType);
          var usage := WindowUsage(policy, rule, cutoff);
          assert usage.cost == Amount(usage, Cost);
          if usage.cost > limits[i].maxMicroUSD - cost.value {
            found := found + [Violation(DollarLimitReached, "dollars", limits[i].id)];
          }
        }
      }
      assert limits[..|limits|] == limits;
    }

    method EvaluateRule(policy: Policy, rule: Rule, context: Context, now: int) returns (violations: seq<Violation>)
      requires Valid() && ValidRule(policy, rule)
      ensures violations == RuleViolations(policy, rule, context, now, history, false)
    {
      hide PendingAgrees, StoreAgrees, StaticViolations, RequestViolations, TokenViolations, DollarViolations;
      hide Sorting.StableSort, IdentityScopeAuthenticated;
      var found := StaticViolations(rule, context);
      var identity := IdentityViolations(policy, rule, context);
      var requests := RequestFindings(policy, rule, now);
      var tokens := TokenFindings(policy, rule, context, now);
      var dollars := DollarFindings(policy, rule, context, now);
      var slots := [];
      if rule.limits.concurrency > 0 {
        var current := SlotCount(inFlight, RuleKey(policy, rule));
        assert current == SlotsHeld(history, RuleKey(policy, rule));
        if current + 1 > rule.limits.concurrency {
          slots := [Violation(ConcurrencyLimit, "concurrency", "")];
        }
      }
      violations := Sorting.StableSort(found + identity + requests + tokens + dollars + slots, ViolationBefore);
    }

    /** Every applicable rule is evaluated and all of them must pass. A denial is written to the
        store and reserves nothing; an admission reserves and writes nothing yet. */
    method Prepare(now: int, context: Context, policy: Option<Policy>, storeOk: bool) returns (result: PrepareResult)
      requires Valid() && (policy.Some? ==> ValidPolicy(policy.value))
      modifies this, store
      ensures Valid() && history == Next(old(history), Step.Prepare(now, context, policy, storeOk))
      ensures result.Failed? <==> BadEstimate(context) || !storeOk || (policy.Some? && Unrepresentable(context))
      ensures result.NoActivePolicy? ==> policy.None?
      ensures result.DeniedBy? || result.AdmittedWith? ==>
                policy.Some? && result.decision == Decide(policy.value, context, now, old(history), false)
      ensures result.DeniedBy? ==> result.decision.denied
      ensures result.AdmittedWith? ==> !result.decision.denied && fresh(result.reservation)
                                       && issued == old(issued) + [result.reservation]
      ensures result.AdmittedWith? ==>
                |history| == |old(history)| + 1 && history[|old(history)|].status == Prepared
                && Leaves(policy.value, context, now, history[|old(history)|])
      ensures !result.AdmittedWith? ==> issued == old(issued)
      ensures result.AdmittedWith? ==> result.reservation.record == PreparedRecord(policy.value, context, now, false)
      ensures store.decisions == old(store.decisions) + (if result.DeniedBy? then [PreparedRecord(policy.value, context, now, true)] else [])
    {
      hide PendingAgrees, SlotsAgree, StoreAgrees, RuleViolations, ValidRule, ApplicableRules, Represents;
      hide ConservativeCostMicroUSD, AdmissionUsage, CounterRows, Specificity, StatusForViolations, EnforcedViolations, Leaves;
      if BadEstimate(context) || !storeOk {
        return Failed;
      }
      if policy.None? {
        return NoActivePolicy;
      }
      if Unrepresentable(context) {
        return Failed;
      }
      var p := policy.value;
      var rules := ApplicableRules(p, context);
      ApplicableValid(p, context);
      var decisions: seq<RuleDecision> := [];
      for i := 0 to |rules|
        modifies {}
        invariant |decisions| == i
        invariant forall j :: 0 <= j < i ==>
                    decisions[j] == RuleDecision(rules[j].id, RuleMode(p, rules[j]), Specificity(rules[j]),
                                                 RuleViolations(p, rules[j], context, now, history, false))
      {
        var violations := EvaluateRule(p, rules[i], context, now);
        decisions := decisions + [RuleDecision(rules[i].id, RuleMode(p, rules[i]), Specificity(rules[i]), violations)];
      }
      assert decisions == RuleDecisions(p, rules, context, now, history, false);
      var enforced := EnforcedViolations(decisions);
      var denied := enforced != [];
      var decision := Decision(denied, if denied then StatusForViolations(enforced) else 0, decisions);
      var usage := AdmissionUsage(context);
      UsageSound(context);
      var record := DecisionRecord(now, p.namespace, denied, false, CounterRows(rules, !denied, usage));
      CounterRowsSound(rules, !denied, usage);
      CounterRowsAccepted(rules, !denied, usage);
      if denied {
        StoreAfterDenial(store.decisions, history, record);
        var inserted := store.InsertPolicyDecision(record, true);
        return DeniedBy(decision);
      }
      var reservation := Reserve(p, context, now, rules, record);
      EntryLeft(p, context, now);
      assert history[|old(history)|] == NewEntry(p, context, now);
      return AdmittedWith(reservation, decision);
    }

    method Reserve(policy: Policy, context: Context, now: int, rules: seq<Rule>, record: DecisionRecord) returns (reservation: Reservation)
      requires Valid() && ValidPolicy(policy) && !BadEstimate(context)
      requires rules == ApplicableRules(policy, context)
      requires record.ts == now && record.namespace == policy.namespace
      requires record.rules == CounterRows(rules, true, AdmissionUsage(context))
      modifies this
      ensures Valid() && history == old(history) + [NewEntry(policy, context, now)]
      ensures fresh(reservation) && issued == old(issued) + [reservation] && reservation.record == record
    {
      hide PendingAgrees, SlotsAgree, StoreAgrees, ApplicableRules, Represents, AdmissionUsage, CounterRows, ValidPolicy;
      hide PendingAdded, SlotsAdded, CounterKeys, SlotKeys, DistinctIds, NoDuplicates;
      ghost var h, oldPending, oldInFlight := history, pending, inFlight;
      ApplicableDistinct(policy, context);
      var id := nextPending + 1;
      nextPending := id;
      var counterKeys, slotKeys := Enlist(policy, rules, id, Pending(now, AdmissionUsage(context)));
      ghost var e := NewEntry(policy, context, now);
      KeysOfEntry(policy, context, counterKeys, slotKeys);
      RecordRepresents(policy, context, now, record);
      UsageSound(context);
      PendingAfterAppend(oldPending, pending, h, offset, counterKeys, e);
      SlotsAfterAppend(oldInFlight, inFlight, h, slotKeys, e);
      StoreAfterAppend(store.decisions, h, e);
      reservation := new Reservation(this, record, id, counterKeys, slotKeys);
      history := h + [e];
      issued := issued + [reservation];
    }

    /** Enters one reservation under the key of every rule that counts or limits concurrency. */
    method Enlist(policy: Policy, rules: seq<Rule>, id: nat, item: Pending) returns (counterKeys: seq<Key>, slotKeys: seq<Key>)
      requires DistinctIds(rules)
      modifies this`pending, this`inFlight
      ensures NoDuplicates(counterKeys) && NoDuplicates(slotKeys)
      ensures forall k :: k in counterKeys <==> CountsUnder(policy, rules, k)
      ensures forall k :: k in slotKeys <==> HoldsUnder(policy, rules, k)
      ensures PendingAdded(old(pending), pending, counterKeys, id, item)
      ensures SlotsAdded(old(inFlight), inFlight, slotKeys)
    {
      hide PendingAdded, SlotsAdded, CountsUnder, HoldsUnder, HasCounters, NoDuplicates;
      counterKeys, slotKeys := [], [];
      NothingAdded(pending, inFlight, id, item);
      NothingUnder(policy);
      for n := 0 to |rules|
        invariant NoDuplicates(counterKeys) && NoDuplicates(slotKeys)
        invariant forall k :: k in counterKeys <==> CountsUnder(policy, rules[..n], k)
        invariant forall k :: k in slotKeys <==> HoldsUnder(policy, rules[..n], k)
        invariant PendingAdded(old(pending), pending, counterKeys, id, item)
        invariant SlotsAdded(old(inFlight), inFlight, slotKeys)
      {
        var key := RuleKey(policy, rules[n]);
        UnderExtends(policy, rules, n);
        if HasCounters(rules[n]) {
          PendingAddedStep(old(pending), pending, counterKeys, id, item, key);
          pending := pending[key := (if key in pending then pending[key] else map[])[id := item]];
          AppendDistinct(counterKeys, key);
          counterKeys := counterKeys + [key];
        }
        if rules[n].limits.concurrency != 0 {
          SlotsAddedStep(old(inFlight), inFlight, slotKeys, key);
          inFlight := inFlight[key := SlotCount(inFlight, key) + 1];
          AppendDistinct(slotKeys, key);
          slotKeys := slotKeys + [key];
        }
      }
      assert rules[..|rules|] == rules;
    }
  }

  lemma NothingAdded(pending: PendingMap, inFlight: map<Key, int>, id: nat, item: Pending)
    ensures PendingAdded(pending, pending, [], id, item) && SlotsAdded(inFlight, inFlight, [])
    ensures NoDuplicates<Key>([])
  {
  }

  lemma NothingUnder(policy: Policy)
    ensures forall k :: !CountsUnder(policy, [], k) && !HoldsUnder(policy, [], k)
  {
  }

  lemma AppendDistinct(keys: seq<Key>, key: Key)
    requires NoDuplicates(keys) && key !in keys
    ensures NoDuplicates(keys + [key])
    ensures forall k :: k in keys + [key] <==> k in keys || k == key
  {
  }

  lemma PendingPut(now: PendingMap, key: Key, id: nat, item: Pending, k: Key, i: nat)
    ensures var after := now[key := (if key in now then now[key] else map[])[id := item]];
            (HasPending(after, k, i) <==> HasPending(now, k, i) || (k == key && i == id))
            && (HasPending(after, k, i) ==> if k == key && i == id then after[k][i] == item else HasPending(now, k, i) && after[k][i] == now[k][i])
            && id in after[key]
  {
  }

  lemma PendingAddedStep(before: PendingMap, now: PendingMap, keys: seq<Key>, id: nat, item: Pending, key: Key)
    requires PendingAdded(before, now, keys, id, item)
    ensures PendingAdded(before, now[key := (if key in now then now[key] else map[])[id := item]], keys + [key], id, item)
  {
    var after := now[key := (if key in now then now[key] else map[])[id := item]];
    PendingPut(now, key, id, item, key, id);
    assert after[key] != map[];
    forall k, i
      ensures HasPending(after, k, i) <==> HasPending(before, k, i) || (i == id && k in keys + [key])
      ensures HasPending(after, k, i) ==>
                if i == id && k in keys + [key] then after[k][i] == item
                else HasPending(before, k, i) && after[k][i] == before[k][i]
    {
      hide HasPending;
      PendingPut(now, key, id, item, k, i);
      assert k in keys + [key] <==> k in keys || k == key;
      assert HasPending(now, k, i) <==> HasPending(before, k, i) || (i == id && k in keys);
    }
  }

  lemma SlotsAddedStep(before: map<Key, int>, now: map<Key, int>, keys: seq<Key>, key: Key)
    requires SlotsAdded(before, now, keys) && key !in keys
    ensures SlotsAdded(before, now[key := SlotCount(now, key) + 1], keys + [key])
  {
  }

  ghost predicate CountsUnder(policy: Policy, rules: seq<Rule>, key: Key) {
    exists rule :: rule in rules && HasCounters(rule) && RuleKey(policy, rule) == key
  }

  ghost predicate HoldsUnder(policy: Policy, rules: seq<Rule>, key: Key) {
    exists rule :: rule in rules && rule.limits.concurrency != 0 && RuleKey(policy, rule) == key
  }

  lemma UnderExtends(policy: Policy, rules: seq<Rule>, n: nat)
    requires n < |rules| && DistinctIds(rules)
    ensures var key := RuleKey(policy, rules[n]);
            !CountsUnder(policy, rules[..n], key) && !HoldsUnder(policy, rules[..n], key)
    ensures forall k :: CountsUnder(policy, rules[..n + 1], k)
              <==> CountsUnder(policy, rules[..n], k) || (HasCounters(rules[n]) && k == RuleKey(policy, rules[n]))
    ensures forall k :: HoldsUnder(policy, rules[..n + 1], k)
              <==> HoldsUnder(policy, rules[..n], k) || (rules[n].limits.concurrency != 0 && k == RuleKey(policy, rules[n]))
  {
    hide HasCounters;
    assert rules[..n + 1] == rules[..n] + [rules[n]];
  }

  lemma KeysOfEntry(policy: Policy, context: Context, counterKeys: seq<Key>, slotKeys: seq<Key>)
    requires forall k :: k in counterKeys <==> CountsUnder(policy, ApplicableRules(policy, context), k)
    requires forall k :: k in slotKeys <==> HoldsUnder(policy, ApplicableRules(policy, context), k)
    ensures KeySet(counterKeys) == CounterKeys(policy, context) && KeySet(slotKeys) == SlotKeys(policy, context)
  {
    hide ApplicableRules, HasCounters;
  }
}
