/** Which rollout stands for a session, which sessions have conflicting copies, and which are forked,
    directly or not, from a cycle of forks. */
module CodexLineage {
  import opened Common
  import opened CodexTypes

  // ----- canonical rollouts -----

  predicate Candidate(r: Rollout) { r.sessionID != "" && r.metadataValid }

  /** Complete copies win; among equally complete ones, the longer. */
  predicate Better(a: Rollout, b: Rollout) {
    (!b.complete && a.complete) || (a.complete == b.complete && |a.usage| > |b.usage|)
  }

  /** Index of the first of the best copies among the first `n` rollouts. */
  ghost predicate Chosen(rollouts: seq<Rollout>, n: nat, id: string, k: nat) {
    k < n <= |rollouts| && rollouts[k].sessionID == id && Candidate(rollouts[k])
    && (forall j :: 0 <= j < n && rollouts[j].sessionID == id && Candidate(rollouts[j]) ==> !Better(rollouts[j], rollouts[k]))
    && (forall j :: 0 <= j < k && rollouts[j].sessionID == id && Candidate(rollouts[j]) ==> Better(rollouts[k], rollouts[j]))
  }

  ghost predicate Canonical(rollouts: seq<Rollout>, n: nat, canonical: map<string, nat>) {
    n <= |rollouts|
    && (forall i :: 0 <= i < n && Candidate(rollouts[i]) ==> rollouts[i].sessionID in canonical)
    && (forall id :: id in canonical ==> Chosen(rollouts, n, id, canonical[id]))
  }

  /** No copy is complete unless the chosen one is, none as complete is longer, and none before it
      is as good. */
  ghost predicate BestCopy(rollouts: seq<Rollout>, id: string, k: nat) {
    k < |rollouts| && rollouts[k].sessionID == id != "" && rollouts[k].metadataValid
    && forall j :: 0 <= j < |rollouts| && rollouts[j].sessionID == id && rollouts[j].metadataValid ==>
         (rollouts[j].complete ==> rollouts[k].complete)
         && (rollouts[j].complete == rollouts[k].complete ==> |rollouts[j].usage| <= |rollouts[k].usage|)
         && (j < k ==> (rollouts[k].complete && !rollouts[j].complete) || |rollouts[j].usage| < |rollouts[k].usage|)
  }

  lemma ChosenIsBest(rollouts: seq<Rollout>, id: string, k: nat)
    ensures Chosen(rollouts, |rollouts|, id, k) <==> BestCopy(rollouts, id, k)
  {
    if Chosen(rollouts, |rollouts|, id, k) {
      forall j | 0 <= j < |rollouts| && rollouts[j].sessionID == id && rollouts[j].metadataValid
        ensures (rollouts[j].complete ==> rollouts[k].complete)
                && (rollouts[j].complete == rollouts[k].complete ==> |rollouts[j].usage| <= |rollouts[k].usage|)
                && (j < k ==> (rollouts[k].complete && !rollouts[j].complete) || |rollouts[j].usage| < |rollouts[k].usage|)
      {
        assert Candidate(rollouts[j]) && !Better(rollouts[j], rollouts[k]);
      }
    }
  }

  method CanonicalRollouts(rollouts: seq<Rollout>) returns (canonical: map<string, nat>)
    ensures Canonical(rollouts, |rollouts|, canonical)
    ensures forall id :: id in canonical <==> exists i :: 0 <= i < |rollouts| && rollouts[i].sessionID == id != "" && rollouts[i].metadataValid
    ensures forall id :: id in canonical ==> BestCopy(rollouts, id, canonical[id])
  {
    canonical := map[];
    for i := 0 to |rollouts|
      invariant Canonical(rollouts, i, canonical)
    {
      var candidate := rollouts[i];
      if Candidate(candidate) {
        if candidate.sessionID !in canonical || Better(candidate, rollouts[canonical[candidate.sessionID]]) {
          canonical := canonical[candidate.sessionID := i];
        }
      }
    }
    forall id | id in canonical ensures BestCopy(rollouts, id, canonical[id]) {
      ChosenIsBest(rollouts, id, canonical[id]);
    }
    forall i | 0 <= i < |rollouts| && rollouts[i].sessionID != "" && rollouts[i].metadataValid ensures rollouts[i].sessionID in canonical {
      assert Candidate(rollouts[i]);
    }
  }

  // ----- conflicting copies -----

  predicate StartsWith(usage: seq<Record>, prefix: seq<Record>) { prefix <= usage }

  /** A complete copy that the canonical one does not extend. */
  predicate Conflicts(rollouts: seq<Rollout>, canonical: map<string, nat>, i: nat)
    requires i < |rollouts| && forall id :: id in canonical ==> canonical[id] < |rollouts|
  {
    var r := rollouts[i];
    Candidate(r) && r.complete && r.sessionID in canonical && canonical[r.sessionID] != i
    && var selected := rollouts[canonical[r.sessionID]];
       selected.metadataValid && selected.complete
       && (r.fork != selected.fork || r.parentID != selected.parentID || r.startedAt != selected.startedAt
           || !StartsWith(selected.usage, r.usage))
  }

  method AmbiguousSessions(rollouts: seq<Rollout>, canonical: map<string, nat>) returns (ambiguous: set<string>)
    requires forall id :: id in canonical ==> canonical[id] < |rollouts|
    ensures forall id :: id in ambiguous <==> exists i :: 0 <= i < |rollouts| && rollouts[i].sessionID == id && Conflicts(rollouts, canonical, i)
  {
    ambiguous := {};
    for i := 0 to |rollouts|
      invariant forall id :: id in ambiguous <==> exists j :: 0 <= j < i && rollouts[j].sessionID == id && Conflicts(rollouts, canonical, j)
    {
      if Conflicts(rollouts, canonical, i) {
        ambiguous := ambiguous + {rollouts[i].sessionID};
      }
    }
  }

  // ----- lineage -----

  type Forest = map<string, Rollout>

  /** The present parent a session was forked from. */
  function Parent(forest: Forest, id: string): Option<string> {
    if id in forest && forest[id].fork && forest[id].parentID in forest then Some(forest[id].parentID) else None
  }

  function Ancestor(forest: Forest, id: string, k: nat): Option<string>
    decreases k
  {
    if k == 0 then Some(id)
    else match Parent(forest, id) case None => None case Some(parent) => Ancestor(forest, parent, k - 1)
  }

  ghost predicate OnCycle(forest: Forest, id: string) {
    exists k: nat :: k >= 1 && Ancestor(forest, id, k) == Some(id)
  }

  /** The chain of present parents gets into a cycle. */
  ghost predicate ReachesCycle(forest: Forest, id: string) {
    exists k: nat :: Ancestor(forest, id, k).Some? && OnCycle(forest, Ancestor(forest, id, k).value)
  }

  lemma {:induction false} AncestorSum(forest: Forest, id: string, a: nat, b: nat)
    requires Ancestor(forest, id, a).Some?
    ensures Ancestor(forest, id, a + b) == Ancestor(forest, Ancestor(forest, id, a).value, b)
    decreases a
  {
    if a > 0 {
      AncestorSum(forest, Parent(forest, id).value, a - 1, b);
    }
  }

  /** A session reaches a cycle exactly when its parent does. */
  lemma ParentDecides(forest: Forest, id: string)
    ensures Parent(forest, id).Some? ==> (ReachesCycle(forest, id) <==> ReachesCycle(forest, Parent(forest, id).value))
    ensures Parent(forest, id).None? ==> !ReachesCycle(forest, id)
  {
    if Parent(forest, id).None? {
      assert forall k: nat :: k >= 1 ==> Ancestor(forest, id, k).None?;
    } else {
      var parent := Parent(forest, id).value;
      if ReachesCycle(forest, parent) {
        var k: nat :| Ancestor(forest, parent, k).Some? && OnCycle(forest, Ancestor(forest, parent, k).value);
        assert Ancestor(forest, id, k + 1) == Ancestor(forest, parent, k);
      }
      if ReachesCycle(forest, id) {
        var k: nat :| Ancestor(forest, id, k).Some? && OnCycle(forest, Ancestor(forest, id, k).value);
        if k > 0 {
          assert Ancestor(forest, parent, k - 1) == Ancestor(forest, id, k);
        } else {
          var p: nat :| p >= 1 && Ancestor(forest, id, p) == Some(id);
          assert Ancestor(forest, parent, p - 1) == Some(id);
        }
      }
    }
  }

  /** Finished sessions are invalid exactly when they reach a cycle; the others on record are the
      current path. */
  ghost predicate Marked(forest: Forest, state: map<string, int>, invalid: set<string>, path: seq<string>) {
    state.Keys <= forest.Keys && invalid <= state.Keys
    && (forall id :: id in state ==> if id in path then state[id] == 1 else state[id] == 2)
    && (forall id :: id in path ==> id in state)
    && (forall id :: id in invalid ==> ReachesCycle(forest, id))
    && (forall id :: id in state && state[id] == 2 && ReachesCycle(forest, id) ==> id in invalid)
  }

  lemma Entered(forest: Forest, state: map<string, int>, invalid: set<string>, path: seq<string>, id: string)
    requires Marked(forest, state, invalid, path) && id in forest && id !in state
    ensures Marked(forest, state[id := 1], invalid, path + [id])
  {
    hide ReachesCycle;
  }

  lemma Left(forest: Forest, state: map<string, int>, invalid: set<string>, path: seq<string>, id: string, bad: bool)
    requires Marked(forest, state, invalid, path + [id]) && id !in path && (bad <==> ReachesCycle(forest, id))
    ensures Marked(forest, state[id := 2], if bad then invalid + {id} else invalid, path)
  {
    hide ReachesCycle;
    assert id in path + [id];
  }

  lemma MarksMean(forest: Forest, state: map<string, int>, invalid: set<string>, path: seq<string>, id: string)
    requires Marked(forest, state, invalid, path)
    ensures state.Keys <= forest.Keys
    ensures id in path ==> id in state && (ReachesCycle(forest, id) ==> Marked(forest, state, invalid + {id}, path))
    ensures id in state && state[id] == 1 ==> id in path
    ensures id in state && state[id] != 1 ==> state[id] == 2 && (id in invalid <==> ReachesCycle(forest, id))
  {
    hide ReachesCycle;
  }

  /** The depth-first search over lineages: 1 marks the current path, 2 what is finished. */
  class LineageSearch {
    const forest: Forest
    var state: map<string, int>
    var invalid: set<string>

    ghost predicate Valid(path: seq<string>)
      reads this
    {
      Marked(forest, state, invalid, path)
    }

    ghost predicate LeadsTo(path: seq<string>, id: string) {
      forall i :: 0 <= i < |path| ==> Ancestor(forest, path[i], |path| - i) == Some(id)
    }

    constructor (forest: Forest)
      ensures this.forest == forest && state == map[] && invalid == {} && Valid([])
    {
      this.forest := forest;
      state := map[];
      invalid := {};
    }

    method Visit(id: string, ghost path: seq<string>) returns (bad: bool)
      requires id in forest && Valid(path) && LeadsTo(path, id)
      modifies this
      ensures Valid(path) && id in state && old(state).Keys <= state.Keys
      ensures bad <==> ReachesCycle(forest, id)
      decreases forest.Keys - state.Keys
    {
      hide ReachesCycle, Ancestor, Marked, LeadsTo;
      MarksMean(forest, state, invalid, path, id);
      if id in state && state[id] == 1 {
        PathCycles(path, id);
        invalid := invalid + {id};
        return true;
      }
      if id in state && state[id] == 2 {
        return id in invalid;
      }
      Entered(forest, state, invalid, path, id);
      ghost var unseen := forest.Keys - state.Keys;
      state := state[id := 1];
      assert forest.Keys - state.Keys == unseen - {id};
      bad := false;
      ParentDecides(forest, id);
      var rollout := forest[id];
      if rollout.fork && rollout.parentID in forest {
        PathExtends(path, id);
        bad := Visit(rollout.parentID, path + [id]);
      }
      Left(forest, state, invalid, path, id, bad);
      state := state[id := 2];
      if bad {
        invalid := invalid + {id};
      }
    }

    lemma PathCycles(path: seq<string>, id: string)
      requires LeadsTo(path, id) && id in path
      ensures ReachesCycle(forest, id)
    {
      var i :| 0 <= i < |path| && path[i] == id;
      assert Ancestor(forest, id, |path| - i) == Some(id) && |path| - i >= 1;
      assert OnCycle(forest, id);
      assert Ancestor(forest, id, 0) == Some(id);
    }

    lemma PathExtends(path: seq<string>, id: string)
      requires LeadsTo(path, id) && Parent(forest, id).Some?
      ensures LeadsTo(path + [id], Parent(forest, id).value)
    {
      var parent := Parent(forest, id).value;
      assert Ancestor(forest, parent, 0) == Some(parent);
      assert Ancestor(forest, id, 1) == Some(parent);
      forall i | 0 <= i < |path| + 1 ensures Ancestor(forest, (path + [id])[i], |path| + 1 - i) == Some(parent) {
        if i < |path| {
          AncestorSum(forest, path[i], |path| - i, 1);
        }
      }
    }
  }

  /** Exactly the sessions whose chain of present parents gets into a cycle, in whatever order the
      sessions are visited. */
  method InvalidLineages(forest: Forest) returns (invalid: set<string>)
    ensures forall id :: id in invalid <==> id in forest && ReachesCycle(forest, id)
  {
    hide ReachesCycle;
    var search := new LineageSearch(forest);
    var left := forest.Keys;
    while left != {}
      invariant left <= forest.Keys && search.forest == forest && search.Valid([])
      invariant forall id :: id in forest && id !in left ==> id in search.state
      decreases |left|
    {
      var id :| id in left;
      var bad := search.Visit(id, []);
      left := left - {id};
    }
    return search.invalid;
  }
}
