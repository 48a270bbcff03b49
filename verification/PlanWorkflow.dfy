/** Running a plan layer by layer on a cluster that completes activities in any order. */
module PlanWorkflow {
  import opened Ordering
  import opened PlanGraph
  import opened Plan

  datatype Input = Input(nodeId: string, args: seq<string>, upstream: map<string, string>)

  datatype Task = Task(id: NodeID, activity: string, options: Options, input: Input)

  datatype Outcome = Done(out: string) | Failed(err: string)

  datatype Report = Report(outputs: map<string, string>, leaves: seq<string>)

  datatype RunError = InvalidPlan(cause: PlanError) | NodeFailed(id: NodeID, err: string)

  /**
   * The activity side of the system. Tasks are handed over one at a time, each getting the next
   * handle; between any two steps of the workflow, any running tasks may complete, in any order and
   * with any outcome. `known[h]` records which results existed when task `h` was handed over.
   */
  class Cluster {
    var tasks: seq<Task>
    var results: map<nat, Outcome>
    ghost var known: seq<map<nat, Outcome>>

    ghost predicate Valid()
      reads this
    {
      Recorded(tasks, results, known)
    }

    constructor ()
      ensures Valid() && tasks == [] && results == map[]
    {
      tasks, results, known := [], map[], [];
    }

    /** Some running tasks complete: any number, any order, any outcome. */
    method Progress()
      requires Valid()
      modifies this`results
      ensures Valid()
      ensures Extends(old(results), results)
    {
      var steps: nat := *;
      while steps > 0
        invariant Valid()
        invariant Extends(old(results), results)
      {
        var h: nat := *;
        if h < |tasks| && h !in results {
          var outcome: Outcome := *;
          results := results[h := outcome];
        }
        steps := steps - 1;
      }
    }

    method ExecuteActivity(t: Task) returns (handle: nat)
      requires Valid()
      modifies this
      ensures Valid()
      ensures handle == |old(tasks)| && tasks == old(tasks) + [t] && |known| == |tasks|
      ensures known[..handle] == old(known)
      ensures Extends(old(results), known[handle])
      ensures Extends(old(results), results)
    {
      Progress();
      handle := |tasks|;
      known := known + [results];
      tasks := tasks + [t];
    }

    /** Waits for one task; the others go on completing meanwhile. */
    method Get(handle: nat) returns (outcome: Outcome)
      requires Valid() && handle < |tasks|
      modifies this`results
      ensures Valid()
      ensures handle in results && results[handle] == outcome
      ensures Extends(old(results), results)
    {
      Progress();
      if handle !in results {
        var o: Outcome := *;
        results := results[handle := o];
      }
      outcome := results[handle];
    }
  }

  /** Results are only ever added. */
  ghost predicate Extends(before: map<nat, Outcome>, after: map<nat, Outcome>) {
    forall h | h in before :: h in after && after[h] == before[h]
  }

  ghost predicate Recorded(tasks: seq<Task>, results: map<nat, Outcome>, known: seq<map<nat, Outcome>>) {
    && |known| == |tasks|
    && (forall h | h in results :: h < |tasks|)
    && (forall i | 0 <= i < |known| :: Extends(known[i], results))
    && (forall i, h | 0 <= i < |known| && h in known[i] :: h < i)
  }

  // ----- What a run promises -----

  ghost function Flatten(ls: seq<seq<NodeID>>): seq<NodeID> {
    if ls == [] then [] else Flatten(ls[..|ls| - 1]) + ls[|ls| - 1]
  }

  ghost function TaskIDs(tasks: seq<Task>): seq<NodeID> {
    seq(|tasks|, i requires 0 <= i < |tasks| => tasks[i].id)
  }

  ghost function NodeOf(p: Plan, id: NodeID): Node
    requires id in IDs(p.nodes)
  {
    var n :| n in p.nodes && n.id == id;
    n
  }

  /** `upstream` gives, for each requirement, the output with which it had completed. */
  ghost predicate UpstreamKnown(reqs: seq<NodeID>, upstream: map<string, string>, tasks: seq<Task>,
      seen: map<nat, Outcome>)
  {
    && upstream.Keys == Elements(reqs)
    && forall req | req in reqs ::
         exists h :: h in seen && h < |tasks| && tasks[h].id == req && seen[h] == Done(upstream[req])
  }

  /** A task was handed over for a node of the plan, after all its requirements had completed. */
  ghost predicate Dispatched(p: Plan, tasks: seq<Task>, i: nat, seen: map<nat, Outcome>)
    requires i < |tasks|
  {
    var t := tasks[i];
    && t.id in IDs(p.nodes)
    && t == Task(t.id, NodeOf(p, t.id).activity, EffectiveOptions(p, NodeOf(p, t.id)),
                 Input(t.id, NodeOf(p, t.id).args, t.input.upstream))
    && UpstreamKnown(NodeOf(p, t.id).dependsOn, t.input.upstream, tasks, seen)
  }

  ghost predicate AllDispatched(p: Plan, tasks: seq<Task>, known: seq<map<nat, Outcome>>)
    requires |known| == |tasks|
  {
    forall i | 0 <= i < |tasks| :: Dispatched(p, tasks, i, known[i])
  }

  /** The first `n` tasks have all completed with the given outputs. */
  ghost predicate Collected(tasks: seq<Task>, results: map<nat, Outcome>, n: nat, outputs: map<string, string>)
    requires n <= |tasks|
  {
    && outputs.Keys == Elements(TaskIDs(tasks[..n]))
    && forall h: nat | h < n :: h in results && tasks[h].id in outputs && results[h] == Done(outputs[tasks[h].id])
  }

  /** The layers of a well-formed plan. */
  ghost function PlanLayers(p: Plan): seq<seq<NodeID>> {
    if LayersOf(GraphOf(p.nodes)).Ok? then LayersOf(GraphOf(p.nodes)).value else []
  }

  /**
   * Everything a finished run guarantees, whatever the interleaving: layers were handed over whole and
   * in order, each task after its requirements; success means every task's output was collected, and a
   * failure is that of the first failing node of the last layer handed over.
   */
  ghost predicate RunOf(p: Plan, tasks: seq<Task>, results: map<nat, Outcome>, known: seq<map<nat, Outcome>>,
      r: Result<Report, RunError>)
  {
    && Recorded(tasks, results, known)
    && AllDispatched(p, tasks, known)
    && match r {
         case Ok(report) =>
           && TaskIDs(tasks) == Flatten(PlanLayers(p))
           && Collected(tasks, results, |tasks|, report.outputs)
           && report.leaves == Listing(Unrequired(GraphOf(p.nodes)))
         case Err(InvalidPlan(_)) => false
         case Err(NodeFailed(id, err)) =>
           FailedIn(PlanLayers(p), tasks, results, id, err)
       }
  }

  /** Task `h` is the first to fail: it did, and every task before it had completed. */
  ghost predicate FailedAt(tasks: seq<Task>, results: map<nat, Outcome>, base: nat, h: nat, id: NodeID, err: string,
      outputs: map<string, string>)
  {
    && base <= h < |tasks| && tasks[h].id == id
    && h in results && results[h] == Failed(err)
    && Collected(tasks, results, h, outputs)
  }

  ghost predicate FailedIn(layers: seq<seq<NodeID>>, tasks: seq<Task>, results: map<nat, Outcome>, id: NodeID,
      err: string)
  {
    exists m: nat, h: nat, outputs ::
      && m < |layers| && TaskIDs(tasks) == Flatten(layers[..m + 1])
      && FailedAt(tasks, results, |Flatten(layers[..m])|, h, id, err, outputs)
  }

  // ----- The workflow -----

  method Run(p: Plan, cluster: Cluster) returns (r: Result<Report, RunError>)
    requires cluster.Valid() && cluster.tasks == []
    modifies cluster
    ensures WellFormed(p) ==> RunOf(p, cluster.tasks, cluster.results, cluster.known, r)
    ensures !WellFormed(p) ==> r.Err? && r.error.InvalidPlan? && Explains(p, r.error.cause) && cluster.tasks == []
  {
    hide RunOf, AllDispatched, Collected, Flatten, FailedIn, FailedAt, WellFormed, Explains, Expected, GraphOf,
      LayersOf, PlanLayers, IDs, UniqueIDs, Recorded;
    var valid := Validate(p);
    if valid.Err? {
      return Err(InvalidPlan(valid.error));
    }
    var sorted := Layers(p.nodes);
    PlanSorted(p);
    var layers := sorted.value;
    var outputs: map<string, string> := map[];
    NothingYet(p, cluster.results, cluster.known, layers);
    for li := 0 to |layers|
      invariant cluster.Valid() && |cluster.known| == |cluster.tasks| && AllDispatched(p, cluster.tasks, cluster.known)
      invariant TaskIDs(cluster.tasks) == Flatten(layers[..li])
      invariant Collected(cluster.tasks, cluster.results, |cluster.tasks|, outputs)
    {
      FlattenStep(layers, li);
      ghost var base := |cluster.tasks|;
      var futures := DispatchLayer(p, layers, li, layers[li], outputs, cluster);
      FlattenDistinct(GraphOf(p.nodes), layers, li + 1);
      var failure: Option<(NodeID, string)>;
      outputs, failure := AwaitLayer(layers[li], base, futures, outputs, cluster);
      if failure.Some? {
        FailedRun(p, layers, li, cluster.tasks, cluster.results, cluster.known, failure.value.0, failure.value.1,
          outputs);
        return Err(NodeFailed(failure.value.0, failure.value.1));
      }
    }
    assert layers[..|layers|] == layers;
    var leaves := Leaves(p.nodes);
    SucceededRun(p, layers, cluster.tasks, cluster.results, cluster.known, Report(outputs, leaves));
    return Ok(Report(outputs, leaves));
  }

  lemma PlanSorted(p: Plan)
    requires WellFormed(p)
    ensures UniqueIDs(p.nodes)
    ensures Expected(GraphOf(p.nodes)).Ok? && LayersOf(GraphOf(p.nodes)) == Ok(Expected(GraphOf(p.nodes)).value)
    ensures PlanLayers(p) == Expected(GraphOf(p.nodes)).value
  {
    LayersOfSucceeds(GraphOf(p.nodes));
  }

  lemma NothingYet(p: Plan, results: map<nat, Outcome>, known: seq<map<nat, Outcome>>, layers: seq<seq<NodeID>>)
    requires Recorded([], results, known)
    ensures |known| == 0 && AllDispatched(p, [], known) && Collected([], results, 0, map[])
    ensures TaskIDs([]) == Flatten(layers[..0])
  {
  }

  lemma FlattenStep(layers: seq<seq<NodeID>>, li: nat)
    requires li < |layers|
    ensures Flatten(layers[..li + 1]) == Flatten(layers[..li]) + layers[li]
  {
    assert layers[..li + 1][..li] == layers[..li];
  }

  lemma FailedRun(p: Plan, layers: seq<seq<NodeID>>, li: nat, tasks: seq<Task>, results: map<nat, Outcome>,
                  known: seq<map<nat, Outcome>>, id: NodeID, err: string, outputs: map<string, string>)
    requires Recorded(tasks, results, known) && AllDispatched(p, tasks, known) && PlanLayers(p) == layers
        && li < |layers|
    requires TaskIDs(tasks) == Flatten(layers[..li + 1])
    requires exists h: nat :: FailedAt(tasks, results, |Flatten(layers[..li])|, h, id, err, outputs)
    ensures RunOf(p, tasks, results, known, Err(NodeFailed(id, err)))
  {
    assert FailedIn(layers, tasks, results, id, err);
  }

  lemma SucceededRun(p: Plan, layers: seq<seq<NodeID>>, tasks: seq<Task>, results: map<nat, Outcome>,
                     known: seq<map<nat, Outcome>>, report: Report)
    requires Recorded(tasks, results, known) && AllDispatched(p, tasks, known) && PlanLayers(p) == layers
    requires TaskIDs(tasks) == Flatten(layers) && Collected(tasks, results, |tasks|, report.outputs)
    requires report.leaves == Listing(Unrequired(GraphOf(p.nodes)))
    ensures RunOf(p, tasks, results, known, Ok(report))
  {
  }

  /** Hands over every node of layer `li`, its inputs taken from the outputs collected so far. */
  method DispatchLayer(p: Plan, ghost layers: seq<seq<NodeID>>, ghost li: nat, layer: seq<NodeID>,
                       outputs: map<string, string>, cluster: Cluster)
    returns (futures: seq<(NodeID, nat)>)
    requires WellFormed(p) && LayersOf(GraphOf(p.nodes)) == Ok(layers) && li < |layers| && layer == layers[li]
    requires cluster.Valid() && AllDispatched(p, cluster.tasks, cluster.known)
    requires TaskIDs(cluster.tasks) == Flatten(layers[..li])
    requires Collected(cluster.tasks, cluster.results, |cluster.tasks|, outputs)
    modifies cluster
    ensures cluster.Valid() && AllDispatched(p, cluster.tasks, cluster.known)
    ensures |cluster.known| == |cluster.tasks|
    ensures TaskIDs(cluster.tasks) == Flatten(layers[..li]) + layer
    ensures |cluster.tasks| == |old(cluster.tasks)| + |layer|
    ensures Collected(cluster.tasks, cluster.results, |old(cluster.tasks)|, outputs)
    ensures Pending(futures, layer, |old(cluster.tasks)|)
  {
    hide AllDispatched, Collected, Flatten, RequirementsMet, WellFormed, UniqueIDs, GraphOf, IDs, LayersOf;
    futures := [];
    ghost var base := |cluster.tasks|;
    assert cluster.tasks[..base] == cluster.tasks;
    for j := 0 to |layer|
      invariant cluster.Valid() && AllDispatched(p, cluster.tasks, cluster.known)
      invariant |cluster.tasks| == base + j && cluster.tasks[..base] == old(cluster.tasks)
      invariant TaskIDs(cluster.tasks) == Flatten(layers[..li]) + layer[..j]
      invariant Collected(cluster.tasks, cluster.results, base, outputs)
      invariant Pending(futures, layer[..j], base)
    {
      UpstreamReady(p, layers, li, layer[j], cluster.tasks, cluster.results, base, outputs);
      ghost var before := cluster.tasks;
      assert cluster.tasks[..base] == before[..base];
      var handle := DispatchNode(p, layer[j], outputs, base, cluster);
      assert cluster.tasks == before + [cluster.tasks[handle]];
      assert TaskIDs(cluster.tasks) == TaskIDs(before) + [layer[j]];
      assert layer[..j + 1] == layer[..j] + [layer[j]];
      futures := futures + [(layer[j], handle)];
    }
  }

  /** The futures of one layer, in its order. */
  ghost predicate Pending(futures: seq<(NodeID, nat)>, layer: seq<NodeID>, base: nat) {
    |futures| == |layer| && forall k | 0 <= k < |layer| :: futures[k] == (layer[k], base + k)
  }

  /** Everything `id` requires has completed, with the output the workflow collected. */
  ghost predicate RequirementsMet(p: Plan, id: NodeID, tasks: seq<Task>, results: map<nat, Outcome>,
      outputs: map<string, string>)
    requires id in IDs(p.nodes)
  {
    forall req | req in NodeOf(p, id).dependsOn ::
      && req in outputs
      && exists h :: h in results && h < |tasks| && tasks[h].id == req && results[h] == Done(outputs[req])
  }

  method DispatchNode(p: Plan, id: NodeID, outputs: map<string, string>, ghost base: nat, cluster: Cluster)
    returns (handle: nat)
    requires UniqueIDs(p.nodes) && id in IDs(p.nodes)
    requires cluster.Valid() && AllDispatched(p, cluster.tasks, cluster.known) && base <= |cluster.tasks|
    requires RequirementsMet(p, id, cluster.tasks, cluster.results, outputs)
    requires Collected(cluster.tasks, cluster.results, base, outputs)
    modifies cluster
    ensures cluster.Valid() && AllDispatched(p, cluster.tasks, cluster.known)
    ensures handle == |old(cluster.tasks)| && |cluster.tasks| == handle + 1
        && cluster.tasks[..handle] == old(cluster.tasks)
    ensures cluster.tasks[handle].id == id
    ensures Collected(cluster.tasks, cluster.results, base, outputs)
  {
    var found := FindNode(p.nodes, id);
    var n := found.value;
    SameNode(p, n);
    var upstream := UpstreamOf(n, outputs);
    var options := OptionsFor(p, n);
    var task := Task(n.id, n.activity, options, Input(n.id, n.args, upstream));
    ghost var before := cluster.tasks;
    handle := cluster.ExecuteActivity(task);
    DispatchedGrows(p, before, cluster.tasks, cluster.known, upstream, id);
    assert cluster.tasks[..base] == before[..base];
  }

  method UpstreamOf(n: Node, outputs: map<string, string>) returns (upstream: map<string, string>)
    ensures upstream.Keys == Elements(n.dependsOn)
    ensures forall req | req in n.dependsOn :: upstream[req] == if req in outputs then outputs[req] else ""
  {
    upstream := map[];
    for k := 0 to |n.dependsOn|
      invariant upstream.Keys == Elements(n.dependsOn[..k])
      invariant forall req | req in upstream :: upstream[req] == if req in outputs then outputs[req] else ""
    {
      var req := n.dependsOn[k];
      assert n.dependsOn[..k + 1] == n.dependsOn[..k] + [req];
      ElementsAppend(n.dependsOn[..k], [req]);
      upstream := upstream[req := if req in outputs then outputs[req] else ""];
    }
    assert n.dependsOn[..|n.dependsOn|] == n.dependsOn;
  }

  lemma SameNode(p: Plan, n: Node)
    requires UniqueIDs(p.nodes) && n in p.nodes
    ensures n.id in IDs(p.nodes) && NodeOf(p, n.id) == n
  {
    var i :| 0 <= i < |p.nodes| && p.nodes[i] == n;
    var j :| 0 <= j < |p.nodes| && p.nodes[j] == NodeOf(p, n.id);
  }

  lemma DispatchedGrows(p: Plan, before: seq<Task>, tasks: seq<Task>, known: seq<map<nat, Outcome>>,
                        upstream: map<string, string>, id: NodeID)
    requires |known| == |tasks| == |before| + 1 && tasks[..|before|] == before
    requires AllDispatched(p, before, known[..|before|])
    requires id in IDs(p.nodes)
    requires tasks[|before|] ==
        Task(id, NodeOf(p, id).activity, EffectiveOptions(p, NodeOf(p, id)), Input(id, NodeOf(p, id).args, upstream))
    requires UpstreamKnown(NodeOf(p, id).dependsOn, upstream, before, known[|before|])
    ensures AllDispatched(p, tasks, known)
  {
    forall i | 0 <= i < |tasks| ensures Dispatched(p, tasks, i, known[i]) {
      if i < |before| {
        assert Dispatched(p, before, i, known[..|before|][i]);
        assert tasks[i] == before[i];
        UpstreamGrows(NodeOf(p, tasks[i].id).dependsOn, tasks[i].input.upstream, before, tasks, known[i]);
      } else {
        UpstreamGrows(NodeOf(p, id).dependsOn, upstream, before, tasks, known[i]);
      }
    }
  }

  lemma UpstreamGrows(reqs: seq<NodeID>, upstream: map<string, string>, before: seq<Task>, tasks: seq<Task>,
      seen: map<nat, Outcome>)
    requires |before| <= |tasks| && tasks[..|before|] == before
    requires UpstreamKnown(reqs, upstream, before, seen)
    ensures UpstreamKnown(reqs, upstream, tasks, seen)
  {
    forall req | req in reqs
      ensures exists h :: h in seen && h < |tasks| && tasks[h].id == req && seen[h] == Done(upstream[req])
    {
      var h :| h in seen && h < |before| && before[h].id == req && seen[h] == Done(upstream[req]);
      assert tasks[h] == before[h];
    }
  }

  /** When all earlier layers are collected, a node of the next layer has everything it requires. */
  lemma UpstreamReady(p: Plan, layers: seq<seq<NodeID>>, li: nat, id: NodeID, tasks: seq<Task>,
                      results: map<nat, Outcome>, base: nat, outputs: map<string, string>)
    requires WellFormed(p) && LayersOf(GraphOf(p.nodes)) == Ok(layers) && li < |layers| && id in layers[li]
    requires base <= |tasks| && TaskIDs(tasks[..base]) == Flatten(layers[..li])
    requires Collected(tasks, results, base, outputs)
    ensures UniqueIDs(p.nodes) && id in IDs(p.nodes) && RequirementsMet(p, id, tasks, results, outputs)
  {
    var g := GraphOf(p.nodes);
    InLayer(g, layers, li, id);
    var n := NodeOf(p, id);
    var i :| 0 <= i < |p.nodes| && p.nodes[i] == n;
    RequiresAt(p.nodes, i);
    forall req | req in n.dependsOn
      ensures req in outputs
      ensures exists h :: h in results && h < |tasks| && tasks[h].id == req && results[h] == Done(outputs[req])
    {
      assert req in g[id];
      LayersOfRespectsRequires(g, layers, li, id, req);
      var j :| 0 <= j < li && req in layers[j];
      InFlatten(layers[..li], j, req);
      var ids := TaskIDs(tasks[..base]);
      assert req in ids;
      var h :| 0 <= h < |ids| && ids[h] == req;
      assert tasks[h].id == req;
    }
  }

  lemma {:induction false} InFlatten(ls: seq<seq<NodeID>>, j: nat, id: NodeID)
    requires j < |ls| && id in ls[j]
    ensures id in Flatten(ls)
  {
    if j < |ls| - 1 {
      InFlatten(ls[..|ls| - 1], j, id);
    }
  }

  /** The layers list every node once. */
  lemma {:induction false} FlattenDistinct(g: Graph, layers: seq<seq<NodeID>>, n: nat)
    requires LayersOf(g) == Ok(layers) && n <= |layers|
    ensures Distinct(Flatten(layers[..n]))
    ensures forall id | id in Flatten(layers[..n]) :: exists j :: 0 <= j < n && id in layers[j]
  {
    if n == 0 {
    } else {
      FlattenDistinct(g, layers, n - 1);
      assert layers[..n][..n - 1] == layers[..n - 1];
      InLayer(g, layers, n - 1, "");
      AscendingDistinct(layers[n - 1]);
      var earlier, last := Flatten(layers[..n - 1]), layers[n - 1];
      forall id | id in earlier ensures id !in last {
        var j :| 0 <= j < n - 1 && id in layers[j];
        LayersDisjoint(g, layers, j, n - 1, id);
      }
      assert Flatten(layers[..n]) == earlier + last;
      DistinctAppend(earlier, last);
    }
  }

  lemma DistinctAppend<T>(a: seq<T>, b: seq<T>)
    requires Distinct(a) && Distinct(b) && forall x | x in a :: x !in b
    ensures Distinct(a + b)
  {
    forall i, j | 0 <= i < j < |a + b| ensures (a + b)[i] != (a + b)[j] {
      if i < |a| <= j {
        assert a[i] in a && b[j - |a|] in b;
      }
    }
  }

  /** Waits for a layer's futures in order; the first failure ends the wait. */
  method AwaitLayer(layer: seq<NodeID>, ghost base: nat, futures: seq<(NodeID, nat)>, outputs0: map<string, string>,
      cluster: Cluster)
    returns (outputs: map<string, string>, failure: Option<(NodeID, string)>)
    requires cluster.Valid() && |cluster.tasks| == base + |layer|
    requires TaskIDs(cluster.tasks)[base..] == layer
    requires Collected(cluster.tasks, cluster.results, base, outputs0)
    requires Pending(futures, layer, base)
    requires Distinct(TaskIDs(cluster.tasks))
    modifies cluster`results
    ensures cluster.Valid()
    ensures failure.None? ==> Collected(cluster.tasks, cluster.results, |cluster.tasks|, outputs)
    ensures failure.Some? ==>
              exists h: nat :: FailedAt(cluster.tasks, cluster.results, base, h, failure.value.0, failure.value.1,
                outputs)
  {
    outputs := outputs0;
    assert forall k | 0 <= k < |layer| :: cluster.tasks[base + k].id == TaskIDs(cluster.tasks)[base..][k];
    for k := 0 to |futures|
      invariant cluster.Valid()
      invariant Collected(cluster.tasks, cluster.results, base + k, outputs)
    {
      var id, handle := futures[k].0, futures[k].1;
      ghost var before := cluster.results;
      var outcome := cluster.Get(handle);
      CollectedGrows(cluster.tasks, before, cluster.results, handle, outputs);
      match outcome {
        case Failed(err) =>
          assert FailedAt(cluster.tasks, cluster.results, base, handle, id, err, outputs);
          return outputs, Some((id, err));
        case Done(out) =>
          CollectOne(cluster.tasks, cluster.results, handle, outputs, out);
          outputs := outputs[id := out];
      }
    }
    return outputs, None;
  }

  lemma CollectedGrows(tasks: seq<Task>, before: map<nat, Outcome>, after: map<nat, Outcome>, n: nat,
      outputs: map<string, string>)
    requires n <= |tasks| && Collected(tasks, before, n, outputs) && Extends(before, after)
    ensures Collected(tasks, after, n, outputs)
  {
  }

  lemma CollectOne(tasks: seq<Task>, results: map<nat, Outcome>, n: nat, outputs: map<string, string>, out: string)
    requires n < |tasks| && Distinct(TaskIDs(tasks))
    requires Collected(tasks, results, n, outputs)
    requires n in results && results[n] == Done(out)
    ensures Collected(tasks, results, n + 1, outputs[tasks[n].id := out])
  {
    var ids := TaskIDs(tasks);
    assert TaskIDs(tasks[..n + 1]) == TaskIDs(tasks[..n]) + [tasks[n].id];
    ElementsAppend(TaskIDs(tasks[..n]), [tasks[n].id]);
    forall h: nat | h < n ensures tasks[h].id != tasks[n].id {
      assert ids[h] != ids[n];
    }
  }
}
