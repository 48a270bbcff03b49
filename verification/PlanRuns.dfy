/** What every interleaving of a plan run has in common: it refines evaluating the nodes one by one. */
module PlanRuns {
  import opened Ordering
  import opened PlanGraph
  import opened Plan
  import opened PlanWorkflow

  /** Activities whose outcome depends on nothing but their name and input. */
  type Activities = (string, Input) -> Outcome

  ghost function InputFor(p: Plan, id: NodeID, outputs: map<string, string>): Input
    requires id in IDs(p.nodes)
  {
    var n := NodeOf(p, id);
    Input(id, n.args, map req | req in n.dependsOn :: if req in outputs then outputs[req] else "")
  }

  ghost function NodeOutcome(p: Plan, run: Activities, id: NodeID, outputs: map<string, string>): Outcome
    requires id in IDs(p.nodes)
  {
    run(NodeOf(p, id).activity, InputFor(p, id, outputs))
  }

  /** The reference: evaluate nodes one at a time in the given order, stopping at the first failure. */
  ghost function Sequential(p: Plan, run: Activities, order: seq<NodeID>, outputs: map<string, string>)
    : Result<map<string, string>, (NodeID, string)>
    requires forall id | id in order :: id in IDs(p.nodes)
  {
    if order == [] then Ok(outputs) else
      var init, id := order[..|order| - 1], order[|order| - 1];
      match Sequential(p, run, init, outputs)
      case Err(e) => Err(e)
      case Ok(m) =>
        match NodeOutcome(p, run, id, m)
        case Done(out) => Ok(m[id := out])
        case Failed(err) => Err((id, err))
  }

  ghost function Order(p: Plan): (order: seq<NodeID>)
    ensures forall id | id in order :: id in IDs(p.nodes)
  {
    var layers := PlanLayers(p);
    if LayersOf(GraphOf(p.nodes)).Ok? then
      OrderListsNodes(p);
      Flatten(layers)
    else []
  }

  lemma OrderListsNodes(p: Plan)
    requires LayersOf(GraphOf(p.nodes)).Ok?
    ensures Distinct(Flatten(PlanLayers(p)))
    ensures Elements(Flatten(PlanLayers(p))) == IDs(p.nodes)
    ensures forall id | id in Flatten(PlanLayers(p)) :: id in IDs(p.nodes)
  {
    var g, ls := GraphOf(p.nodes), PlanLayers(p);
    FlattenDistinct(g, ls, |ls|);
    assert ls[..|ls|] == ls;
    forall id | id in Flatten(ls) ensures id in IDs(p.nodes) {
      var j :| 0 <= j < |ls| && id in ls[j];
      InLayer(g, ls, j, id);
    }
    forall id | id in IDs(p.nodes) ensures id in Flatten(ls) {
      var k := LayerNumber(g, ls, id);
      InFlatten(ls, k, id);
    }
  }

  ghost predicate Agrees(tasks: seq<Task>, results: map<nat, Outcome>, run: Activities) {
    forall h | h in results && h < |tasks| :: results[h] == run(tasks[h].activity, tasks[h].input)
  }

  /** An activity's input is the one the collected outputs determine. */
  lemma InputDetermined(p: Plan, tasks: seq<Task>, results: map<nat, Outcome>, known: seq<map<nat, Outcome>>, n: nat,
      outputs: map<string, string>)
    requires Recorded(tasks, results, known) && AllDispatched(p, tasks, known) && n < |tasks|
    requires Collected(tasks, results, n, outputs)
    ensures tasks[n].id in IDs(p.nodes)
    ensures tasks[n].activity == NodeOf(p, tasks[n].id).activity
    ensures tasks[n].input == InputFor(p, tasks[n].id, outputs)
    ensures forall req | req in NodeOf(p, tasks[n].id).dependsOn :: req in outputs
  {
    assert Dispatched(p, tasks, n, known[n]);
    var reqs, upstream := NodeOf(p, tasks[n].id).dependsOn, tasks[n].input.upstream;
    forall req | req in reqs ensures req in outputs && upstream[req] == outputs[req] {
      var h: nat :| h in known[n] && h < |tasks| && tasks[h].id == req && known[n][h] == Done(upstream[req]);
      assert h in known[n] && h in results && results[h] == known[n][h];
      assert h < n;
    }
    assert upstream == InputFor(p, tasks[n].id, outputs).upstream;
  }

  /** Collecting the first `n` results amounts to evaluating the first `n` nodes one by one. */
  lemma {:induction false} CollectedIsSequential(p: Plan, run: Activities, tasks: seq<Task>, results: map<nat, Outcome>,
                               known: seq<map<nat, Outcome>>, n: nat, outputs: map<string, string>)
    requires Recorded(tasks, results, known) && AllDispatched(p, tasks, known) && n <= |tasks|
    requires Agrees(tasks, results, run) && Distinct(TaskIDs(tasks))
    requires Collected(tasks, results, n, outputs)
    ensures forall id | id in TaskIDs(tasks)[..n] :: id in IDs(p.nodes)
    ensures Sequential(p, run, TaskIDs(tasks)[..n], map[]) == Ok(outputs)
  {
    hide Recorded, AllDispatched, Collected, Agrees, InputFor, NodeOf, IDs, TaskIDs, Sequential;
    DispatchedNodes(p, tasks, results, known, n);
    if n == 0 {
      NothingCollected(p, run, tasks, results, outputs);
    } else {
      var id := tasks[n - 1].id;
      var earlier := outputs - {id};
      Uncollect(tasks, results, n, outputs);
      CollectedIsSequential(p, run, tasks, results, known, n - 1, earlier);
      InputDetermined(p, tasks, results, known, n - 1, earlier);
      LastCollected(p, run, tasks, results, n, outputs);
      TaskIDsInit(tasks, n);
      SequentialStep(p, run, TaskIDs(tasks)[..n - 1], id, earlier, outputs);
    }
  }

  lemma DispatchedNodes(p: Plan, tasks: seq<Task>, results: map<nat, Outcome>, known: seq<map<nat, Outcome>>, n: nat)
    requires Recorded(tasks, results, known) && AllDispatched(p, tasks, known) && n <= |tasks|
    ensures |TaskIDs(tasks)| == |tasks| && forall id | id in TaskIDs(tasks)[..n] :: id in IDs(p.nodes)
  {
    forall h: nat | h < n ensures tasks[h].id in IDs(p.nodes) {
      assert Dispatched(p, tasks, h, known[h]);
    }
  }

  lemma NothingCollected(p: Plan, run: Activities, tasks: seq<Task>, results: map<nat, Outcome>,
      outputs: map<string, string>)
    requires Collected(tasks, results, 0, outputs)
    ensures Sequential(p, run, TaskIDs(tasks)[..0], map[]) == Ok(outputs)
  {
    assert outputs == map[];
  }

  lemma TaskIDsInit(tasks: seq<Task>, n: nat)
    requires 0 < n <= |tasks|
    ensures |TaskIDs(tasks)| == |tasks| && TaskIDs(tasks)[..n] == TaskIDs(tasks)[..n - 1] + [tasks[n - 1].id]
  {
  }

  lemma LastCollected(p: Plan, run: Activities, tasks: seq<Task>, results: map<nat, Outcome>, n: nat,
      outputs: map<string, string>)
    requires 0 < n <= |tasks| && Collected(tasks, results, n, outputs) && Agrees(tasks, results, run)
    ensures tasks[n - 1].id in outputs
    ensures run(tasks[n - 1].activity, tasks[n - 1].input) == Done(outputs[tasks[n - 1].id])
  {
    assert n - 1 in results;
  }

  lemma SequentialStep(p: Plan, run: Activities, init: seq<NodeID>, id: NodeID, earlier: map<string, string>,
      outputs: map<string, string>)
    requires (forall x | x in init :: x in IDs(p.nodes)) && id in IDs(p.nodes)
    requires Sequential(p, run, init, map[]) == Ok(earlier)
    requires id in outputs && earlier == outputs - {id} && NodeOutcome(p, run, id, earlier) == Done(outputs[id])
    ensures (forall x | x in init + [id] :: x in IDs(p.nodes)) && Sequential(p, run, init + [id], map[]) == Ok(outputs)
  {
    assert (init + [id])[..|init|] == init;
    assert earlier[id := outputs[id]] == outputs;
  }

  lemma Uncollect(tasks: seq<Task>, results: map<nat, Outcome>, n: nat, outputs: map<string, string>)
    requires 0 < n <= |tasks| && Distinct(TaskIDs(tasks)) && Collected(tasks, results, n, outputs)
    ensures Collected(tasks, results, n - 1, outputs - {tasks[n - 1].id})
  {
    var ids := TaskIDs(tasks);
    assert TaskIDs(tasks[..n]) == TaskIDs(tasks[..n - 1]) + [tasks[n - 1].id];
    ElementsAppend(TaskIDs(tasks[..n - 1]), [tasks[n - 1].id]);
    forall h: nat | h < n - 1 ensures tasks[h].id != tasks[n - 1].id {
      assert ids[h] != ids[n - 1];
    }
  }

  lemma {:induction false} SequentialStops(p: Plan, run: Activities, a: seq<NodeID>, b: seq<NodeID>,
      outputs: map<string, string>)
    requires forall id | id in a + b :: id in IDs(p.nodes)
    requires (forall id | id in a :: id in IDs(p.nodes)) && Sequential(p, run, a, outputs).Err?
    ensures Sequential(p, run, a + b, outputs) == Sequential(p, run, a, outputs)
  {
    if b == [] {
      assert a + b == a;
    } else {
      assert (a + b)[..|a + b| - 1] == a + b[..|b| - 1];
      SequentialStops(p, run, a, b[..|b| - 1], outputs);
    }
  }

  lemma {:induction false} FlattenPrefix(ls: seq<seq<NodeID>>, m: nat)
    requires m <= |ls|
    ensures Flatten(ls[..m]) <= Flatten(ls)
    decreases |ls|
  {
    if m < |ls| {
      var init := ls[..|ls| - 1];
      FlattenPrefix(init, m);
      assert init[..m] == ls[..m];
    } else {
      assert ls[..m] == ls;
    }
  }

  /**
   * Refinement: with deterministic activities, a run's result is that of evaluating the nodes one by
   * one in layer order, however the completions interleaved. In particular it is unique.
   */
  lemma RunRefinesSequential(p: Plan, run: Activities, tasks: seq<Task>, results: map<nat, Outcome>,
                             known: seq<map<nat, Outcome>>, r: Result<Report, RunError>)
    requires WellFormed(p) && RunOf(p, tasks, results, known, r) && Agrees(tasks, results, run)
    ensures r == match Sequential(p, run, Order(p), map[])
                 case Ok(outputs) => Ok(Report(outputs, Listing(Unrequired(GraphOf(p.nodes)))))
                 case Err((id, err)) => Err(NodeFailed(id, err))
  {
    LayersOfSucceeds(GraphOf(p.nodes));
    OrderListsNodes(p);
    match r {
      case Ok(report) =>
        SuccessIsSequential(p, run, tasks, results, known, report.outputs);
      case Err(NodeFailed(id, err)) =>
        FailureIsSequential(p, run, PlanLayers(p), Order(p), tasks, results, known, id, err);
    }
  }

  lemma SuccessIsSequential(p: Plan, run: Activities, tasks: seq<Task>, results: map<nat, Outcome>,
                            known: seq<map<nat, Outcome>>, outputs: map<string, string>)
    requires Recorded(tasks, results, known) && AllDispatched(p, tasks, known) && Agrees(tasks, results, run)
    requires Distinct(TaskIDs(tasks)) && Collected(tasks, results, |tasks|, outputs)
    ensures forall x | x in TaskIDs(tasks) :: x in IDs(p.nodes)
    ensures Sequential(p, run, TaskIDs(tasks), map[]) == Ok(outputs)
  {
    assert TaskIDs(tasks)[..|tasks|] == TaskIDs(tasks);
    CollectedIsSequential(p, run, tasks, results, known, |tasks|, outputs);
  }

  lemma FailureIsSequential(p: Plan, run: Activities, ls: seq<seq<NodeID>>, order: seq<NodeID>, tasks: seq<Task>,
                            results: map<nat, Outcome>, known: seq<map<nat, Outcome>>, id: NodeID, err: string)
    requires Recorded(tasks, results, known) && AllDispatched(p, tasks, known) && Agrees(tasks, results, run)
    requires order == Flatten(ls) && Distinct(order) && forall x | x in order :: x in IDs(p.nodes)
    requires FailedIn(ls, tasks, results, id, err)
    ensures Sequential(p, run, order, map[]) == Err((id, err))
  {
    var h, outputs := FailurePoint(ls, order, tasks, results, id, err);
    CollectedIsSequential(p, run, tasks, results, known, h, outputs);
    InputDetermined(p, tasks, results, known, h, outputs);
    SequentialStopsAt(p, run, order, TaskIDs(tasks)[..h], id, outputs, err);
  }

  /** A failed run had handed over a prefix of the layer order, and collected all before the failure. */
  lemma FailurePoint(ls: seq<seq<NodeID>>, order: seq<NodeID>, tasks: seq<Task>, results: map<nat, Outcome>,
      id: NodeID, err: string)
    returns (h: nat, outputs: map<string, string>)
    requires order == Flatten(ls) && Distinct(order) && FailedIn(ls, tasks, results, id, err)
    ensures FailedAt(tasks, results, 0, h, id, err, outputs)
    ensures Distinct(TaskIDs(tasks))
    ensures TaskIDs(tasks)[..h] + [id] <= order
  {
    var ids := TaskIDs(tasks);
    var m: nat, h': nat, outputs' :| m < |ls| && ids == Flatten(ls[..m + 1])
      && FailedAt(tasks, results, |Flatten(ls[..m])|, h', id, err, outputs');
    h, outputs := h', outputs';
    FlattenPrefix(ls, m + 1);
    PrefixDistinct(ids, order);
    assert ids[..h] + [id] == ids[..h + 1];
  }

  lemma SequentialStopsAt(p: Plan, run: Activities, order: seq<NodeID>, init: seq<NodeID>, id: NodeID,
      outputs: map<string, string>, err: string)
    requires forall x | x in order :: x in IDs(p.nodes)
    requires init + [id] <= order && forall x | x in init :: x in IDs(p.nodes)
    requires Sequential(p, run, init, map[]) == Ok(outputs)
    requires id in IDs(p.nodes) && NodeOutcome(p, run, id, outputs) == Failed(err)
    ensures Sequential(p, run, order, map[]) == Err((id, err))
  {
    var upTo, rest := init + [id], order[|init| + 1..];
    assert upTo[..|upTo| - 1] == init;
    assert order == upTo + rest;
    SequentialStops(p, run, upTo, rest, map[]);
  }

  lemma PrefixDistinct<T>(a: seq<T>, b: seq<T>)
    requires a <= b && Distinct(b)
    ensures Distinct(a)
  {
  }

  // ----- The sequential evaluator computes the meaning of the graph -----

  /** `m` gives the nodes in `ids` outputs that each node's activity produces from its requirements' outputs. */
  ghost predicate Solves(p: Plan, run: Activities, ids: set<NodeID>, m: map<string, string>)
    requires ids <= IDs(p.nodes)
  {
    && m.Keys == ids
    && forall id | id in ids :: Elements(NodeOf(p, id).dependsOn) <= ids && NodeOutcome(p, run, id, m) == Done(m[id])
  }

  /** Every node comes after everything it requires. */
  ghost predicate Topological(p: Plan, order: seq<NodeID>) {
    && Distinct(order)
    && (forall id | id in order :: id in IDs(p.nodes))
    && forall i, req | 0 <= i < |order| && req in NodeOf(p, order[i]).dependsOn :: req in order[..i]
  }

  lemma OrderTopological(p: Plan)
    requires WellFormed(p)
    ensures Topological(p, Order(p)) && Elements(Order(p)) == IDs(p.nodes)
  {
    LayersOfSucceeds(GraphOf(p.nodes));
    OrderListsNodes(p);
    forall i, req | 0 <= i < |Order(p)| && req in NodeOf(p, Order(p)[i]).dependsOn ensures req in Order(p)[..i] {
      RequirementsFirst(p, PlanLayers(p), i, req);
    }
  }

  lemma RequirementsFirst(p: Plan, ls: seq<seq<NodeID>>, i: nat, req: NodeID)
    requires WellFormed(p) && LayersOf(GraphOf(p.nodes)) == Ok(ls)
    requires i < |Flatten(ls)| && Flatten(ls)[i] in IDs(p.nodes) && req in NodeOf(p, Flatten(ls)[i]).dependsOn
    ensures req in Flatten(ls)[..i]
  {
    var g, id := GraphOf(p.nodes), Flatten(ls)[i];
    assert id in g && req in g[id] by {
      var m :| 0 <= m < |p.nodes| && p.nodes[m] == NodeOf(p, id);
      RequiresAt(p.nodes, m);
    }
    var k := LayerNumber(g, ls, id);
    LayersOfRespectsRequires(g, ls, k, id, req);
    var j :| 0 <= j < k && req in ls[j];
    InFlatten(ls[..k], j, req);
    FlattenPrefix(ls, k);
    var before := Flatten(ls[..k]);
    assert i >= |before| by {
      NotBefore(g, ls, k, id);
      assert before <= Flatten(ls);
    }
    var q :| 0 <= q < |before| && before[q] == req;
    assert Flatten(ls)[..i][q] == req;
  }

  lemma NotBefore(g: Graph, ls: seq<seq<NodeID>>, k: nat, id: NodeID)
    requires LayersOf(g) == Ok(ls) && k < |ls| && id in ls[k]
    ensures id !in Flatten(ls[..k])
  {
    FlattenDistinct(g, ls, k);
    if id in Flatten(ls[..k]) {
      var l :| 0 <= l < k && id in ls[l];
      LayersDisjoint(g, ls, l, k, id);
    }
  }

  lemma OutcomeLocal(p: Plan, run: Activities, id: NodeID, m: map<string, string>, m': map<string, string>)
    requires id in IDs(p.nodes)
    requires forall req | req in NodeOf(p, id).dependsOn :: req in m && req in m' && m[req] == m'[req]
    ensures NodeOutcome(p, run, id, m) == NodeOutcome(p, run, id, m')
  {
    assert InputFor(p, id, m) == InputFor(p, id, m');
  }

  lemma TopologicalInit(p: Plan, order: seq<NodeID>)
    requires Topological(p, order) && order != []
    ensures Topological(p, order[..|order| - 1])
    ensures Elements(order) == Elements(order[..|order| - 1]) + {order[|order| - 1]}
    ensures order[|order| - 1] !in order[..|order| - 1]
    ensures Elements(NodeOf(p, order[|order| - 1]).dependsOn) <= Elements(order[..|order| - 1])
  {
    var init, id := order[..|order| - 1], order[|order| - 1];
    assert order == init + [id];
    ElementsAppend(init, [id]);
    forall i, req | 0 <= i < |init| && req in NodeOf(p, init[i]).dependsOn ensures req in init[..i] {
      assert init[..i] == order[..i] && init[i] == order[i];
    }
  }

  lemma {:induction false} SequentialSound(p: Plan, run: Activities, order: seq<NodeID>, m: map<string, string>)
    requires Topological(p, order) && Elements(order) <= IDs(p.nodes)
    requires Sequential(p, run, order, map[]) == Ok(m)
    ensures Solves(p, run, Elements(order), m)
  {
    if order == [] {
    } else {
      var init, id := order[..|order| - 1], order[|order| - 1];
      TopologicalInit(p, order);
      var shorter := Sequential(p, run, init, map[]).value;
      SequentialSound(p, run, init, shorter);
      ExtendSolution(p, run, init, id, shorter, m);
    }
  }

  lemma {:induction false} SequentialComplete(p: Plan, run: Activities, order: seq<NodeID>, m: map<string, string>)
    requires Topological(p, order) && Elements(order) <= IDs(p.nodes)
    requires Solves(p, run, Elements(order), m)
    ensures Sequential(p, run, order, map[]) == Ok(m)
  {
    if order == [] {
      assert m == map[];
    } else {
      var init, id := order[..|order| - 1], order[|order| - 1];
      TopologicalInit(p, order);
      var shorter := m - {id};
      ShrinkSolution(p, run, init, id, m);
      SequentialComplete(p, run, init, shorter);
      OutcomeLocal(p, run, id, shorter, m) by {
        assert forall req | req in NodeOf(p, id).dependsOn :: req in Elements(NodeOf(p, id).dependsOn);
      }
      assert shorter[id := m[id]] == m;
    }
  }

  /** Evaluating a topological order finds the solution on its nodes exactly when there is one. */
  lemma SequentialSolves(p: Plan, run: Activities, order: seq<NodeID>, m: map<string, string>)
    requires Topological(p, order)
    ensures Elements(order) <= IDs(p.nodes)
    ensures Sequential(p, run, order, map[]) == Ok(m) <==> Solves(p, run, Elements(order), m)
  {
    if Sequential(p, run, order, map[]) == Ok(m) {
      SequentialSound(p, run, order, m);
    }
    if Solves(p, run, Elements(order), m) {
      SequentialComplete(p, run, order, m);
    }
  }

  lemma ExtendSolution(p: Plan, run: Activities, init: seq<NodeID>, id: NodeID, m: map<string, string>,
      m': map<string, string>)
    requires Elements(init) <= IDs(p.nodes) && id in IDs(p.nodes) && id !in init
    requires Solves(p, run, Elements(init), m) && Elements(NodeOf(p, id).dependsOn) <= Elements(init)
    requires NodeOutcome(p, run, id, m).Done? && m' == m[id := NodeOutcome(p, run, id, m).out]
    ensures Solves(p, run, Elements(init) + {id}, m')
  {
    forall x | x in Elements(init) + {id}
      ensures Elements(NodeOf(p, x).dependsOn) <= Elements(init) + {id} && NodeOutcome(p, run, x, m') == Done(m'[x])
    {
      assert forall req | req in NodeOf(p, x).dependsOn :: req in Elements(NodeOf(p, x).dependsOn);
      OutcomeLocal(p, run, x, m, m');
    }
  }

  lemma ShrinkSolution(p: Plan, run: Activities, init: seq<NodeID>, id: NodeID, m: map<string, string>)
    requires Topological(p, init) && Elements(init) <= IDs(p.nodes) && id in IDs(p.nodes) && id !in init
    requires Solves(p, run, Elements(init) + {id}, m)
    ensures Solves(p, run, Elements(init), m - {id})
  {
    forall x | x in Elements(init)
      ensures Elements(NodeOf(p, x).dependsOn) <= Elements(init)
          && NodeOutcome(p, run, x, m - {id}) == Done((m - {id})[x])
    {
      var i :| 0 <= i < |init| && init[i] == x;
      forall req | req in NodeOf(p, x).dependsOn ensures req in Elements(init) {
        assert req in init[..i];
      }
      OutcomeLocal(p, run, x, m - {id}, m);
    }
  }

  /**
   * A run with deterministic activities succeeds exactly when the dependency graph has a solution, which
   * is then unique and is what the run outputs.
   */
  lemma RunComputesSolution(p: Plan, run: Activities, tasks: seq<Task>, results: map<nat, Outcome>,
                            known: seq<map<nat, Outcome>>, r: Result<Report, RunError>, m: map<string, string>)
    requires WellFormed(p) && RunOf(p, tasks, results, known, r) && Agrees(tasks, results, run)
    ensures Solves(p, run, IDs(p.nodes), m) <==> r.Ok? && r.value.outputs == m
  {
    OrderTopological(p);
    SequentialSolves(p, run, Order(p), m);
    RunRefinesSequential(p, run, tasks, results, known, r);
  }

  /** The node a failed evaluation blames is the first, in layer order, whose activity fails. */
  lemma {:induction false} SequentialFailure(p: Plan, run: Activities, order: seq<NodeID>, id: NodeID, err: string)
    returns (i: nat, m: map<string, string>)
    requires Topological(p, order) && Sequential(p, run, order, map[]) == Err((id, err))
    ensures i < |order| && order[i] == id && Elements(order[..i]) <= IDs(p.nodes)
    ensures Solves(p, run, Elements(order[..i]), m) && NodeOutcome(p, run, id, m) == Failed(err)
  {
    var init := order[..|order| - 1];
    TopologicalInit(p, order);
    if Sequential(p, run, init, map[]).Err? {
      i, m := SequentialFailure(p, run, init, id, err);
      assert init[..i] == order[..i];
    } else {
      i, m := |order| - 1, Sequential(p, run, init, map[]).value;
      SequentialSolves(p, run, init, m);
    }
  }

  // ----- Dispatching -----

  /** A successful run hands every node over exactly once; a failed one none of them twice. */
  lemma DispatchedOnce(p: Plan, tasks: seq<Task>, results: map<nat, Outcome>, known: seq<map<nat, Outcome>>,
      r: Result<Report, RunError>)
    requires WellFormed(p) && RunOf(p, tasks, results, known, r)
    ensures Distinct(TaskIDs(tasks))
    ensures r.Ok? ==> Elements(TaskIDs(tasks)) == IDs(p.nodes)
  {
    LayersOfSucceeds(GraphOf(p.nodes));
    OrderListsNodes(p);
    if r.Err? {
      var ls := PlanLayers(p);
      var m: nat :| m < |ls| && TaskIDs(tasks) == Flatten(ls[..m + 1]);
      FlattenPrefix(ls, m + 1);
      PrefixDistinct(TaskIDs(tasks), Flatten(ls));
    }
  }

  /** Nothing that depends on a failed node, however indirectly, is ever handed over. */
  lemma DependentsNotDispatched(p: Plan, tasks: seq<Task>, results: map<nat, Outcome>, known: seq<map<nat, Outcome>>,
                                id: NodeID, err: string, c: seq<NodeID>)
    requires WellFormed(p) && RunOf(p, tasks, results, known, Err(NodeFailed(id, err)))
    requires Chain(GraphOf(p.nodes), c) && |c| >= 2 && c[0] == id
    ensures c[|c| - 1] !in TaskIDs(tasks)
  {
    var g, ls, last := GraphOf(p.nodes), PlanLayers(p), c[|c| - 1];
    LayersOfSucceeds(g);
    var m: nat, h: nat, outputs :| m < |ls| && TaskIDs(tasks) == Flatten(ls[..m + 1])
      && FailedAt(tasks, results, |Flatten(ls[..m])|, h, id, err, outputs);
    FailedInLastLayer(ls, TaskIDs(tasks), m, h, id);
    if last in TaskIDs(tasks) {
      FlattenDistinct(g, ls, m + 1);
      var j :| 0 <= j < m + 1 && last in ls[j];
      ChainClimbs(g, ls, c, m, j);
    }
  }

  /** The end of a dependency chain is in a later layer than its start. */
  lemma ChainClimbs(g: Graph, ls: seq<seq<NodeID>>, c: seq<NodeID>, m: nat, j: nat)
    requires LayersOf(g) == Ok(ls) && Chain(g, c) && |c| >= 2 && m < |ls| && j < |ls|
    requires c[0] in ls[m] && c[|c| - 1] in ls[j]
    ensures m < j
  {
    InLayer(g, ls, m, c[0]);
    InLayer(g, ls, j, c[|c| - 1]);
    Descend(g, c, j + 1);
    var low := j + 1 - |c| + 1;
    if j <= m {
      WithinMonotone(g, low, m);
    }
  }

  lemma FailedInLastLayer(ls: seq<seq<NodeID>>, ids: seq<NodeID>, m: nat, h: nat, id: NodeID)
    requires m < |ls| && ids == Flatten(ls[..m + 1]) && |Flatten(ls[..m])| <= h < |ids| && ids[h] == id
    ensures id in ls[m]
  {
    assert ls[..m + 1][..m] == ls[..m];
    assert ids == Flatten(ls[..m]) + ls[m];
  }
}
