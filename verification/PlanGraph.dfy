/** Dependency graphs: peeling off satisfied nodes, chains, cycles and layerings. */
module PlanGraph {
  import opened Ordering

  type NodeID = string

  /** Each node's set of required nodes. */
  type Graph = map<NodeID, set<NodeID>>

  /** Every required node exists. */
  ghost predicate Closed(g: Graph) {
    forall id | id in g :: g[id] <= g.Keys
  }

  /** A chain of dependencies: each element is required by the next. */
  ghost predicate Chain(g: Graph, c: seq<NodeID>) {
    && |c| > 0
    && (forall i | 0 <= i < |c| :: c[i] in g)
    && (forall i | 0 < i < |c| :: c[i - 1] in g[c[i]])
  }

  ghost predicate ChainTo(g: Graph, id: NodeID, c: seq<NodeID>) {
    Chain(g, c) && c[|c| - 1] == id
  }

  ghost predicate Cycle(g: Graph, c: seq<NodeID>) {
    Chain(g, c) && |c| >= 2 && c[0] == c[|c| - 1]
  }

  ghost predicate Acyclic(g: Graph) {
    !exists c :: Cycle(g, c)
  }

  /** The longest chain ending at `id` has `n` nodes. */
  ghost predicate LongestChain(g: Graph, id: NodeID, n: nat) {
    && (exists c :: ChainTo(g, id, c) && |c| == n)
    && (forall c | ChainTo(g, id, c) :: |c| <= n)
  }

  /** The nodes that require nothing outside `done`. */
  ghost function Satisfied(g: Graph, done: set<NodeID>): set<NodeID> {
    set id | id in g && g[id] <= done
  }

  /** Nodes whose dependencies are exhausted after `k` rounds of removing the nodes with none left. */
  ghost function Within(g: Graph, k: nat): set<NodeID> {
    if k == 0 then {} else Satisfied(g, Within(g, k - 1))
  }

  ghost function Layer(g: Graph, k: nat): set<NodeID> {
    Within(g, k + 1) - Within(g, k)
  }

  lemma {:induction false} WithinGrows(g: Graph, k: nat)
    ensures Within(g, k) <= Within(g, k + 1) <= g.Keys
  {
    if k == 0 {
    } else {
      WithinGrows(g, k - 1);
    }
  }

  lemma {:induction false} WithinMonotone(g: Graph, j: nat, k: nat)
    requires j <= k
    ensures Within(g, j) <= Within(g, k) <= g.Keys
    decreases k
  {
    if j < k {
      WithinMonotone(g, j, k - 1);
      WithinGrows(g, k - 1);
    } else if k > 0 {
      WithinGrows(g, k - 1);
    }
  }

  /** A round that removes nothing is the last one that could. */
  lemma {:induction false} WithinStuck(g: Graph, j: nat, k: nat)
    requires j <= k && Within(g, j) == Within(g, j + 1)
    ensures Within(g, k) == Within(g, j)
    decreases k
  {
    if j == k {
    } else {
      WithinStuck(g, j, k - 1);
    }
  }

  /** After `|g|` rounds peeling has either removed everything or got stuck. */
  lemma {:induction false} WithinSettles(g: Graph, k: nat)
    ensures Within(g, k) == Within(g, k + 1) || |Within(g, k)| >= k
    ensures k >= |g| ==> Within(g, k) == Within(g, k + 1)
  {
    if k == 0 {
    } else {
      WithinSettles(g, k - 1);
      WithinGrows(g, k - 1);
      WithinGrows(g, k);
      if Within(g, k - 1) == Within(g, k) {
        WithinStuck(g, k - 1, k + 1);
      } else {
        Subset(Within(g, k - 1), Within(g, k));
      }
    }
    WithinGrows(g, k);
    WithinGrows(g, k + 1);
    if k >= |g| && Within(g, k) != Within(g, k + 1) {
      Subset(Within(g, k), Within(g, k + 1));
      SubsetSize(Within(g, k + 1), g.Keys);
      assert false;
    }
  }

  lemma Subset<T>(a: set<T>, b: set<T>)
    requires a <= b && a != b
    ensures |a| < |b|
  {
    assert exists x :: x in b && x !in a;
    var x :| x in b && x !in a;
    SubsetSize(a, b - {x});
  }

  lemma {:induction false} SubsetSize<T>(a: set<T>, b: set<T>)
    requires a <= b
    ensures |a| <= |b|
  {
    if a == {} {
    } else {
      var x :| x in a;
      SubsetSize(a - {x}, b - {x});
    }
  }

  /** A node outlasts `k` rounds exactly when a chain of more than `k` nodes leads to it. */
  lemma {:induction false} OutlastsHasChain(g: Graph, id: NodeID, k: nat) returns (c: seq<NodeID>)
    requires Closed(g) && id in g && id !in Within(g, k)
    ensures ChainTo(g, id, c) && |c| == k + 1
    decreases k
  {
    if k == 0 {
      c := [id];
    } else {
      var req :| req in g[id] && req !in Within(g, k - 1);
      var shorter := OutlastsHasChain(g, req, k - 1);
      c := shorter + [id];
    }
  }

  lemma {:induction false} ChainOutlasts(g: Graph, c: seq<NodeID>, k: nat)
    requires Chain(g, c) && |c| > k
    ensures c[|c| - 1] !in Within(g, k)
    decreases k
  {
    if k == 0 {
    } else {
      var prefix := c[..|c| - 1];
      ChainOutlasts(g, prefix, k - 1);
      assert prefix[|prefix| - 1] == c[|c| - 2];
    }
  }

  /** The layer of a node is the length of the longest dependency chain behind it. */
  lemma LayerIsLongestChain(g: Graph, id: NodeID, k: nat)
    requires Closed(g)
    ensures id in Layer(g, k) <==> LongestChain(g, id, k + 1)
  {
    if id in Layer(g, k) {
      WithinGrows(g, k);
      var c := OutlastsHasChain(g, id, k);
      forall d | ChainTo(g, id, d) ensures |d| <= k + 1 {
        if |d| > k + 1 { ChainOutlasts(g, d, k + 1); }
      }
    }
    if LongestChain(g, id, k + 1) {
      var c :| ChainTo(g, id, c) && |c| == k + 1;
      ChainOutlasts(g, c, k);
      if id !in Within(g, k + 1) {
        var d := OutlastsHasChain(g, id, k + 1);
      }
    }
  }

  /** Walking round a cycle makes chains of any length, so no round removes a node on it. */
  lemma {:induction false} CycleNeverPeeled(g: Graph, c: seq<NodeID>, k: nat)
    requires Cycle(g, c)
    ensures c[0] !in Within(g, k)
  {
    if k == 0 {
    } else {
      CycleNeverPeeled(g, c, if k < |c| then 0 else k - |c| + 1);
      if c[0] in Within(g, k) {
        Descend(g, c, k);
      }
    }
  }

  lemma {:induction false} Descend(g: Graph, c: seq<NodeID>, k: nat)
    requires Chain(g, c) && c[|c| - 1] in Within(g, k)
    ensures k >= |c| && c[0] in Within(g, k - |c| + 1)
  {
    if |c| == 1 {
    } else {
      Descend(g, c[..|c| - 1], k - 1);
    }
  }

  /** A chain with more nodes than the graph passes some node twice, and so contains a cycle. */
  lemma LongChainHasCycle(g: Graph, c: seq<NodeID>)
    requires Chain(g, c) && |c| > |g|
    ensures exists d :: Cycle(g, d)
  {
    assert Elements(c) <= g.Keys;
    SubsetSize(Elements(c), g.Keys);
    assert |g| == |g.Keys|;
    if Distinct(c) {
      DistinctSize(c);
    }
    var i, j :| 0 <= i < j < |c| && c[i] == c[j];
    assert Cycle(g, c[i..j + 1]);
  }

  lemma {:induction false} DistinctSize<T>(c: seq<T>)
    requires Distinct(c)
    ensures |Elements(c)| == |c|
  {
    if c == [] {
    } else {
      var init := c[..|c| - 1];
      DistinctSize(init);
      var last := c[|c| - 1];
      assert c == init + [last];
      ElementsAppend(init, [last]);
      assert Elements([last]) == {last} && last !in Elements(init);
    }
  }

  /** Peeling removes every node exactly when the graph has no dangling requirement and no cycle. */
  lemma PeelsCompletely(g: Graph)
    ensures Within(g, |g|) == g.Keys <==> Closed(g) && Acyclic(g)
  {
    WithinSettles(g, |g|);
    WithinGrows(g, |g|);
    if Closed(g) && Acyclic(g) {
      forall id | id in g ensures id in Within(g, |g|) {
        if id !in Within(g, |g|) {
          var c := OutlastsHasChain(g, id, |g|);
          LongChainHasCycle(g, c);
        }
      }
    }
    if Within(g, |g|) == g.Keys {
      forall id | id in g ensures g[id] <= g.Keys {
        assert id in Within(g, |g| + 1);
      }
      forall c | Cycle(g, c) ensures false {
        CycleNeverPeeled(g, c, |g|);
      }
    }
  }

  /** Any assignment of nodes to layers `0..n-1` that puts each after everything it requires. */
  ghost predicate ValidLayering(g: Graph, place: map<NodeID, nat>, n: nat) {
    forall id | id in g ::
      id in place && place[id] < n && forall req | req in g[id] :: req in place && place[req] < place[id]
  }

  /** No valid layering places a node earlier than peeling does. */
  lemma {:induction false} PeelingIsEarliest(g: Graph, place: map<NodeID, nat>, n: nat, id: NodeID)
    requires Closed(g) && ValidLayering(g, place, n) && id in g
    ensures id in Within(g, place[id] + 1)
    decreases place[id]
  {
    forall req | req in g[id] ensures req in Within(g, place[id]) {
      PeelingIsEarliest(g, place, n, req);
      WithinMonotone(g, place[req] + 1, place[id]);
    }
  }

  /** The first round from `k` on that removes nothing. */
  ghost function RoundsFrom(g: Graph, k: nat): nat
    decreases |g| - k
  {
    if k >= |g| || Layer(g, k) == {} then k else RoundsFrom(g, k + 1)
  }

  ghost function LayerList(g: Graph, n: nat): seq<seq<NodeID>> {
    if n == 0 then [] else LayerList(g, n - 1) + [Listing(Layer(g, n - 1))]
  }

  lemma {:induction false} LayerListAt(g: Graph, n: nat)
    ensures |LayerList(g, n)| == n
    ensures forall k | 0 <= k < n :: LayerList(g, n)[k] == Listing(Layer(g, k))
  {
    if n == 0 {
    } else {
      LayerListAt(g, n - 1);
    }
  }

  /** The outcome of layering: the layers in ascending order, or the number of nodes that can never run. */
  ghost function LayersOf(g: Graph): Result<seq<seq<NodeID>>, int> {
    if Within(g, |g|) == g.Keys then Ok(LayerList(g, RoundsFrom(g, 0)))
    else Err(|g| - |Within(g, |g|)|)
  }

  lemma EmptyLayer(g: Graph, k: nat)
    ensures Layer(g, k) == {} <==> Within(g, k) == Within(g, k + 1)
    ensures Within(g, k + 1) == Within(g, k) + Layer(g, k)
  {
    WithinGrows(g, k);
  }

  lemma {:induction false} RoundsAre(g: Graph, k: nat)
    ensures RoundsFrom(g, k) >= k
    ensures forall j | k <= j < RoundsFrom(g, k) :: Layer(g, j) != {}
    ensures Within(g, RoundsFrom(g, k)) == Within(g, RoundsFrom(g, k) + 1)
    decreases |g| - k
  {
    EmptyLayer(g, k);
    if k >= |g| {
      WithinSettles(g, k);
    } else if Layer(g, k) != {} {
      RoundsAre(g, k + 1);
    }
  }

  /** `layers` are the first `|layers|` layers of the graph. */
  ghost predicate Peeled(g: Graph, layers: seq<seq<NodeID>>) {
    |layers| <= RoundsFrom(g, 0) && layers == LayerList(g, |layers|)
  }

  lemma PeelStep(g: Graph, layers: seq<seq<NodeID>>, layer: seq<NodeID>, n: nat)
    requires Peeled(g, layers) && n == |layers|
    requires layer == Listing(Layer(g, n)) && layer != []
    ensures Peeled(g, layers + [layer])
    ensures Within(g, n + 1) == Within(g, n) + Elements(layer)
  {
    ListingSound(Layer(g, n));
    EmptyLayer(g, n);
    RoundsAre(g, 0);
    assert |layers + [layer]| == n + 1 && LayerList(g, n + 1) == layers + [layer];
  }

  lemma PeelDone(g: Graph, layers: seq<seq<NodeID>>)
    requires Peeled(g, layers) && |layers| <= |g| && Within(g, |layers|) == g.Keys
    ensures LayersOf(g) == Ok(layers)
  {
    var n := |layers|;
    assert Within(g, |g|) == g.Keys by {
      WithinMonotone(g, n, |g|);
    }
    assert RoundsFrom(g, 0) == n by {
      WithinMonotone(g, n, n + 1);
      EmptyLayer(g, n);
      RoundsAre(g, 0);
    }
  }

  /** Layering succeeds exactly on closed acyclic graphs. */
  lemma LayersOfSucceeds(g: Graph)
    ensures LayersOf(g).Ok? <==> Closed(g) && Acyclic(g)
  {
    PeelsCompletely(g);
  }

  lemma InLayer(g: Graph, ls: seq<seq<NodeID>>, k: nat, id: NodeID)
    requires LayersOf(g) == Ok(ls) && k < |ls|
    ensures id in ls[k] <==> id in Layer(g, k)
    ensures id in ls[k] ==> id in g
    ensures ls[k] != [] && Ascending(ls[k])
  {
    RoundsAre(g, 0);
    LayerListAt(g, |ls|);
    LayerListAt(g, RoundsFrom(g, 0));
    ListingSound(Layer(g, k));
    assert id in ls[k] <==> id in Elements(ls[k]);
    WithinGrows(g, k);
  }

  /**
   * On success the layers are non-empty ascending lists, layer `k` holding exactly the nodes
   * whose longest dependency chain has `k + 1` nodes, and every node is in one of them.
   */
  lemma LayersOfMeaning(g: Graph, ls: seq<seq<NodeID>>)
    requires LayersOf(g) == Ok(ls)
    ensures forall k | 0 <= k < |ls| :: ls[k] != [] && Ascending(ls[k])
    ensures forall k, id | 0 <= k < |ls| :: id in ls[k] <==> LongestChain(g, id, k + 1)
    ensures forall id | id in g :: exists k :: 0 <= k < |ls| && id in ls[k]
  {
    PeelsCompletely(g);
    forall k | 0 <= k < |ls| ensures ls[k] != [] && Ascending(ls[k]) {
      InLayer(g, ls, k, "");
    }
    forall k, id | 0 <= k < |ls| ensures id in ls[k] <==> LongestChain(g, id, k + 1) {
      InLayer(g, ls, k, id);
      LayerIsLongestChain(g, id, k);
    }
    forall id | id in g ensures exists k :: 0 <= k < |ls| && id in ls[k] {
      var k := LayerNumber(g, ls, id);
    }
  }

  lemma LayerNumber(g: Graph, ls: seq<seq<NodeID>>, id: NodeID) returns (k: nat)
    requires LayersOf(g) == Ok(ls) && id in g
    ensures k < |ls| && id in ls[k]
  {
    RoundsAre(g, 0);
    LayerListAt(g, RoundsFrom(g, 0));
    var m := if |ls| <= |g| then |g| else |ls|;
    WithinStuck(g, |ls|, m);
    WithinMonotone(g, |g|, m);
    k := FirstRound(g, id, |ls|);
    InLayer(g, ls, k, id);
  }

  lemma {:induction false} FirstRound(g: Graph, id: NodeID, m: nat) returns (k: nat)
    requires id in Within(g, m)
    ensures k < m && id in Layer(g, k)
  {
    if id in Within(g, m - 1) {
      k := FirstRound(g, id, m - 1);
    } else {
      k := m - 1;
    }
  }

  /** No valid layering has fewer layers, and none puts a node in an earlier one. */
  lemma LayersOfOptimal(g: Graph, ls: seq<seq<NodeID>>, place: map<NodeID, nat>, n: nat)
    requires LayersOf(g) == Ok(ls) && ValidLayering(g, place, n)
    ensures |ls| <= n
    ensures forall k, id | 0 <= k < |ls| && id in ls[k] :: id in place && k <= place[id]
  {
    forall k, id | 0 <= k < |ls| && id in ls[k] ensures id in place && k <= place[id] {
      PlacedNoEarlier(g, ls, place, n, k, id);
    }
    if ls != [] {
      var k := |ls| - 1;
      InLayer(g, ls, k, "");
      PlacedNoEarlier(g, ls, place, n, k, ls[k][0]);
    }
  }

  lemma PlacedNoEarlier(g: Graph, ls: seq<seq<NodeID>>, place: map<NodeID, nat>, n: nat, k: nat, id: NodeID)
    requires LayersOf(g) == Ok(ls) && ValidLayering(g, place, n) && k < |ls| && id in ls[k]
    ensures id in g && id in place && k <= place[id] < n
  {
    hide LayersOf, Within, Closed, Acyclic;
    LayersOfSucceeds(g);
    InLayer(g, ls, k, id);
    PeelingIsEarliest(g, place, n, id);
    if place[id] < k {
      WithinMonotone(g, place[id] + 1, k);
    }
  }

  /** Layers are themselves a valid layering: everything a node requires is in an earlier one. */
  lemma LayersOfRespectsRequires(g: Graph, ls: seq<seq<NodeID>>, k: nat, id: NodeID, req: NodeID)
    requires LayersOf(g) == Ok(ls) && k < |ls| && id in ls[k] && id in g && req in g[id]
    ensures exists j :: 0 <= j < k && req in ls[j]
  {
    InLayer(g, ls, k, id);
    var j := FirstRound(g, req, k);
    InLayer(g, ls, j, req);
  }

  /** No node is in two layers. */
  lemma LayersDisjoint(g: Graph, ls: seq<seq<NodeID>>, j: nat, k: nat, id: NodeID)
    requires LayersOf(g) == Ok(ls) && j < k < |ls| && id in ls[j]
    ensures id !in ls[k]
  {
    InLayer(g, ls, j, id);
    InLayer(g, ls, k, id);
    WithinMonotone(g, j + 1, k);
  }
}
