/** Plans: options, validation and the counting form of topological layering. */
module Plan {
  import opened Ordering
  import opened PlanGraph

  /** Execution settings. A zero field leaves the choice to the level below; durations are in nanoseconds. */
  datatype Options = Options(
    taskQueue: string, timeout: int, heartbeat: int, maxAttempts: int, nonRetryable: seq<string>)

  datatype Node = Node(
    id: NodeID, activity: string, args: seq<string>, dependsOn: seq<NodeID>, options: Options)

  datatype Plan = Plan(nodes: seq<Node>, defaults: Options)

  const UNSET := Options("", 0, 0, 0, [])

  const DEFAULT_OPTIONS :=
    Options("", 3 * 60 * 1_000_000_000, 0, 3, ["InvalidInput", "InvalidPlan", "ConfigurationError"])

  datatype OptionError = NegativeTimeout | NegativeHeartbeat | NegativeMaxAttempts

  datatype PlanError =
    | NoNodes
    | BadDefaults(option: OptionError)
    | EmptyID
    | DuplicateID(id: NodeID)
    | NoActivity(id: NodeID)
    | BadOptions(id: NodeID, option: OptionError)
    | UnknownRequirement(id: NodeID, req: NodeID)
    | SelfRequirement(id: NodeID)
    | CycleDetected(remaining: int)

  // ----- Options -----

  /** Each element once, in order of first appearance. */
  ghost function Dedup(xs: seq<string>): seq<string> {
    if xs == [] then [] else
      var init, last := xs[..|xs| - 1], xs[|xs| - 1];
      if last in init then Dedup(init) else Dedup(init) + [last]
  }

  lemma {:induction false} DedupKeepsElements(xs: seq<string>)
    ensures Elements(Dedup(xs)) == Elements(xs)
    ensures Distinct(Dedup(xs))
  {
    if xs == [] {
    } else {
      var init, last := xs[..|xs| - 1], xs[|xs| - 1];
      DedupKeepsElements(init);
      assert xs == init + [last];
      ElementsAppend(init, [last]);
      ElementsAppend(Dedup(init), [last]);
      if last !in init {
        assert last !in Elements(Dedup(init));
      }
    }
  }

  lemma {:induction false} DedupOfDistinct(xs: seq<string>)
    requires Distinct(xs)
    ensures Dedup(xs) == xs
  {
    if xs == [] {
    } else {
      DedupOfDistinct(xs[..|xs| - 1]);
    }
  }

  lemma {:induction false} DedupLeft(a: seq<string>, b: seq<string>)
    ensures Dedup(Dedup(a) + b) == Dedup(a + b)
  {
    DedupKeepsElements(a);
    if b == [] {
      assert a + b == a && Dedup(a) + b == Dedup(a);
      DedupOfDistinct(Dedup(a));
    } else {
      var init, last := b[..|b| - 1], b[|b| - 1];
      DedupLeft(a, init);
      assert (a + b)[..|a + b| - 1] == a + init;
      assert (Dedup(a) + b)[..|Dedup(a) + b| - 1] == Dedup(a) + init;
      assert last in a <==> last in Elements(Dedup(a));
    }
  }

  lemma {:induction false} DedupRight(a: seq<string>, b: seq<string>)
    ensures Dedup(a + Dedup(b)) == Dedup(a + b)
  {
    if b == [] {
    } else {
      var init, last := b[..|b| - 1], b[|b| - 1];
      DedupRight(a, init);
      assert a + b == a + init + [last];
      DedupSnoc(a + init, last);
      if last !in init {
        assert a + Dedup(b) == a + Dedup(init) + [last];
        DedupSnoc(a + Dedup(init), last);
        assert last in Dedup(init) <==> last in init by {
          DedupKeepsElements(init);
          assert last in Elements(Dedup(init)) <==> last in Elements(init);
        }
      }
    }
  }

  /** `ys` holds the elements of `xs`, each once, in order of first appearance. */
  ghost predicate FirstSeen(xs: seq<string>, ys: seq<string>) {
    && Distinct(ys) && Elements(ys) == Elements(xs)
    && forall i, j | 0 <= i < j < |ys| :: SeenBefore(xs, ys[i], ys[j])
  }

  ghost predicate SeenBefore(xs: seq<string>, x: string, y: string) {
    exists p :: 0 <= p < |xs| && xs[p] == x && y !in xs[..p + 1]
  }

  lemma {:induction false} DedupFirstSeen(xs: seq<string>)
    ensures FirstSeen(xs, Dedup(xs))
  {
    DedupKeepsElements(xs);
    if xs == [] {
    } else {
      var init, last := xs[..|xs| - 1], xs[|xs| - 1];
      DedupFirstSeen(init);
      var ys := Dedup(xs);
      forall i, j | 0 <= i < j < |ys| ensures SeenBefore(xs, ys[i], ys[j]) {
        if j < |Dedup(init)| {
          assert SeenBefore(init, Dedup(init)[i], Dedup(init)[j]);
          var p :| 0 <= p < |init| && init[p] == ys[i] && ys[j] !in init[..p + 1];
          assert xs[p] == ys[i] && xs[..p + 1] == init[..p + 1];
        } else {
          assert ys[i] in Elements(Dedup(init)) && ys[j] == last;
          var p :| 0 <= p < |init| && init[p] == ys[i];
          assert xs[p] == ys[i] && last !in init && forall x | x in xs[..p + 1] :: x in init;
        }
      }
    }
  }

  lemma DedupSnoc(xs: seq<string>, x: string)
    ensures Dedup(xs + [x]) == if x in xs then Dedup(xs) else Dedup(xs) + [x]
  {
    assert (xs + [x])[..|xs|] == xs;
  }

  /** What layering `over` on top of `o` means, field by field. */
  ghost function Layered(o: Options, over: Options): Options {
    Options(
      if over.taskQueue != "" then over.taskQueue else o.taskQueue,
      if over.timeout != 0 then over.timeout else o.timeout,
      if over.heartbeat != 0 then over.heartbeat else o.heartbeat,
      if over.maxAttempts != 0 then over.maxAttempts else o.maxAttempts,
      Merged(o.nonRetryable, over.nonRetryable))
  }

  /** `more` added to `kept`, never replacing it; an empty `more` leaves `kept` exactly as it is. */
  ghost function Merged(kept: seq<string>, more: seq<string>): seq<string> {
    if more == [] then kept else Dedup(kept + more)
  }

  lemma MergedAssociative(x: seq<string>, y: seq<string>, z: seq<string>)
    ensures Merged(Merged(x, y), z) == Merged(x, Merged(y, z))
  {
    if y != [] && z != [] {
      DedupLeft(x + y, z);
      DedupRight(x, y + z);
      assert x + y + z == x + (y + z);
      DedupKeepsElements(y + z);
      NoElements(y + z);
      NoElements(Dedup(y + z));
    } else if z != [] {
      assert y + z == z;
      DedupRight(x, z);
      DedupKeepsElements(z);
      NoElements(z);
      NoElements(Dedup(z));
    }
  }

  method Over(o: Options, over: Options) returns (r: Options)
    ensures r == Layered(o, over)
    ensures r.taskQueue == if over.taskQueue != "" then over.taskQueue else o.taskQueue
    ensures r.timeout == if over.timeout != 0 then over.timeout else o.timeout
    ensures r.heartbeat == if over.heartbeat != 0 then over.heartbeat else o.heartbeat
    ensures r.maxAttempts == if over.maxAttempts != 0 then over.maxAttempts else o.maxAttempts
    ensures if over.nonRetryable == [] then r.nonRetryable == o.nonRetryable
            else FirstSeen(o.nonRetryable + over.nonRetryable, r.nonRetryable)
  {
    DedupFirstSeen(o.nonRetryable + over.nonRetryable);
    r := o;
    if over.taskQueue != "" {
      r := r.(taskQueue := over.taskQueue);
    }
    if over.timeout != 0 {
      r := r.(timeout := over.timeout);
    }
    if over.heartbeat != 0 {
      r := r.(heartbeat := over.heartbeat);
    }
    if over.maxAttempts != 0 {
      r := r.(maxAttempts := over.maxAttempts);
    }
    if |over.nonRetryable| > 0 {
      var all := Union(o.nonRetryable + over.nonRetryable);
      r := r.(nonRetryable := all);
    }
  }

  method Union(both: seq<string>) returns (all: seq<string>)
    ensures all == Dedup(both)
  {
    var seen: set<string> := {};
    all := [];
    for i := 0 to |both|
      invariant seen == Elements(both[..i])
      invariant all == Dedup(both[..i])
    {
      assert both[..i + 1][..i] == both[..i];
      if both[i] !in seen {
        seen := seen + {both[i]};
        all := all + [both[i]];
      }
    }
    assert both[..|both|] == both;
  }

  /** Layering options is associative. */
  lemma LayeredAssociative(a: Options, b: Options, c: Options)
    ensures Layered(Layered(a, b), c) == Layered(a, Layered(b, c))
  {
    MergedAssociative(a.nonRetryable, b.nonRetryable, c.nonRetryable);
  }

  /** Unset options change nothing, and are overridden entirely exactly when no type is repeated. */
  lemma LayeredUnit(o: Options)
    ensures Layered(o, UNSET) == o
    ensures Layered(UNSET, o) == o <==> Distinct(o.nonRetryable)
  {
    assert [] + o.nonRetryable == o.nonRetryable;
    DedupKeepsElements(o.nonRetryable);
    if Distinct(o.nonRetryable) {
      DedupOfDistinct(o.nonRetryable);
    }
  }

  /** Layering adds non-retryable error types and takes none away. */
  lemma LayeredKeepsNonRetryable(o: Options, over: Options)
    ensures Elements(o.nonRetryable) <= Elements(Layered(o, over).nonRetryable)
    ensures Elements(Layered(o, over).nonRetryable) == Elements(o.nonRetryable) + Elements(over.nonRetryable)
    ensures Distinct(o.nonRetryable) ==> Distinct(Layered(o, over).nonRetryable)
  {
    DedupKeepsElements(o.nonRetryable + over.nonRetryable);
    ElementsAppend(o.nonRetryable, over.nonRetryable);
    NoElements(over.nonRetryable);
  }

  /** Options are sound when nothing in them is negative; otherwise the first negative field is blamed. */
  function Check(o: Options): (r: Option<OptionError>)
    ensures r.None? <==> o.timeout >= 0 && o.heartbeat >= 0 && o.maxAttempts >= 0
    ensures r == Some(NegativeTimeout) <==> o.timeout < 0
    ensures r == Some(NegativeHeartbeat) <==> o.timeout >= 0 && o.heartbeat < 0
  {
    if o.timeout < 0 then Some(NegativeTimeout)
    else if o.heartbeat < 0 then Some(NegativeHeartbeat)
    else if o.maxAttempts < 0 then Some(NegativeMaxAttempts)
    else None
  }

  ghost function EffectiveOptions(p: Plan, n: Node): Options {
    Layered(Layered(DEFAULT_OPTIONS, p.defaults), n.options)
  }

  method OptionsFor(p: Plan, n: Node) returns (r: Options)
    ensures r == EffectiveOptions(p, n)
    ensures r == Layered(DEFAULT_OPTIONS, Layered(p.defaults, n.options))
    ensures r.taskQueue == if n.options.taskQueue != "" then n.options.taskQueue
                           else if p.defaults.taskQueue != "" then p.defaults.taskQueue
                           else DEFAULT_OPTIONS.taskQueue
    ensures r.timeout == if n.options.timeout != 0 then n.options.timeout
                         else if p.defaults.timeout != 0 then p.defaults.timeout
                         else DEFAULT_OPTIONS.timeout
    ensures r.heartbeat == if n.options.heartbeat != 0 then n.options.heartbeat
                           else if p.defaults.heartbeat != 0 then p.defaults.heartbeat
                           else DEFAULT_OPTIONS.heartbeat
    ensures r.maxAttempts == if n.options.maxAttempts != 0 then n.options.maxAttempts
                             else if p.defaults.maxAttempts != 0 then p.defaults.maxAttempts
                             else DEFAULT_OPTIONS.maxAttempts
    ensures Elements(r.nonRetryable)
            == Elements(DEFAULT_OPTIONS.nonRetryable) + Elements(p.defaults.nonRetryable)
              + Elements(n.options.nonRetryable)
  {
    LayeredKeepsNonRetryable(DEFAULT_OPTIONS, p.defaults);
    LayeredKeepsNonRetryable(Layered(DEFAULT_OPTIONS, p.defaults), n.options);
    LayeredAssociative(DEFAULT_OPTIONS, p.defaults, n.options);
    var base := Over(DEFAULT_OPTIONS, p.defaults);
    r := Over(base, n.options);
  }

  /** The options every node of a well-formed plan runs with are usable and keep the defaults' guarantees. */
  lemma EffectiveOptionsUsable(p: Plan, n: Node)
    requires WellFormed(p) && n in p.nodes
    ensures var o := EffectiveOptions(p, n);
      && o.timeout > 0 && o.maxAttempts > 0 && o.heartbeat >= 0
      && Distinct(o.nonRetryable)
      && Elements(DEFAULT_OPTIONS.nonRetryable) <= Elements(o.nonRetryable)
      && Elements(o.nonRetryable)
         == Elements(DEFAULT_OPTIONS.nonRetryable) + Elements(p.defaults.nonRetryable)
           + Elements(n.options.nonRetryable)
  {
    var base := Layered(DEFAULT_OPTIONS, p.defaults);
    LayeredKeepsNonRetryable(DEFAULT_OPTIONS, p.defaults);
    LayeredKeepsNonRetryable(base, n.options);
    assert Check(p.defaults).None?;
    var i :| 0 <= i < |p.nodes| && p.nodes[i] == n;
    assert SoundNode(p.nodes[i]);
  }

  // ----- The dependency graph of a plan -----

  ghost function IDs(nodes: seq<Node>): set<NodeID> {
    set n | n in nodes :: n.id
  }

  ghost predicate UniqueIDs(nodes: seq<Node>) {
    forall i, j | 0 <= i < j < |nodes| :: nodes[i].id != nodes[j].id
  }

  /** The requirements of the last node carrying `id`. */
  ghost function RequiresOf(nodes: seq<Node>, id: NodeID): seq<NodeID> {
    if nodes == [] then [] else
      var last := nodes[|nodes| - 1];
      if last.id == id then last.dependsOn else RequiresOf(nodes[..|nodes| - 1], id)
  }

  ghost function GraphOf(nodes: seq<Node>): Graph {
    map id | id in IDs(nodes) :: Elements(RequiresOf(nodes, id))
  }

  lemma GraphKeys(nodes: seq<Node>)
    ensures GraphOf(nodes).Keys == IDs(nodes) && |GraphOf(nodes)| == |IDs(nodes)|
  {
    assert GraphOf(nodes).Keys == IDs(nodes);
    assert |GraphOf(nodes)| == |GraphOf(nodes).Keys|;
  }

  lemma {:induction false} RequiresAt(nodes: seq<Node>, i: nat)
    requires UniqueIDs(nodes) && i < |nodes|
    ensures RequiresOf(nodes, nodes[i].id) == nodes[i].dependsOn
    ensures nodes[i].id in GraphOf(nodes)
    ensures GraphOf(nodes)[nodes[i].id] == Elements(nodes[i].dependsOn)
  {
    assert nodes[i].id in IDs(nodes);
    if i < |nodes| - 1 {
      RequiresAt(nodes[..|nodes| - 1], i);
    }
  }

  lemma {:induction false} IDCount(nodes: seq<Node>)
    ensures |IDs(nodes)| <= |nodes|
    ensures |IDs(nodes)| == |nodes| <==> UniqueIDs(nodes)
  {
    if nodes == [] {
    } else {
      var init, last := nodes[..|nodes| - 1], nodes[|nodes| - 1];
      IDCount(init);
      assert nodes == init + [last];
      assert IDs(nodes) == IDs(init) + {last.id};
      assert last.id in IDs(init) <==> exists i :: 0 <= i < |init| && init[i].id == last.id;
    }
  }

  /** A node as the graph sees it: its identifier and the set of nodes it requires. */
  ghost function Shapes(nodes: seq<Node>): seq<(NodeID, set<NodeID>)> {
    seq(|nodes|, i requires 0 <= i < |nodes| => (nodes[i].id, Elements(nodes[i].dependsOn)))
  }

  /**
   * Reordering the nodes, and reordering or repeating entries of any node's requirements,
   * leaves the dependency graph unchanged; so does it the layers, which depend on nothing else.
   */
  lemma LayersIgnoreOrder(a: seq<Node>, b: seq<Node>)
    requires UniqueIDs(a) && multiset(Shapes(a)) == multiset(Shapes(b))
    ensures UniqueIDs(b) && |a| == |b|
    ensures LayersOf(GraphOf(a)) == LayersOf(GraphOf(b))
  {
    var sa, sb := Shapes(a), Shapes(b);
    assert |multiset(sa)| == |sa| && |multiset(sb)| == |sb|;
    forall i, j | 0 <= i < j < |b| ensures b[i].id != b[j].id {
      if b[i].id == b[j].id {
        assert sb[i] in multiset(sa) && sb[j] in multiset(sa);
        var m :| 0 <= m < |sa| && sa[m] == sb[i];
        var n :| 0 <= n < |sa| && sa[n] == sb[j];
        assert a[m].id == a[n].id && m == n;
        Occurrences(sb, i, j);
        TwoOccurrences(sa, sb[i]);
      }
    }
    SameShapes(a, b);
    SameShapes(b, a);
    assert GraphOf(a) == GraphOf(b);
  }

  lemma SameShapes(a: seq<Node>, b: seq<Node>)
    requires UniqueIDs(a) && UniqueIDs(b) && multiset(Shapes(a)) == multiset(Shapes(b))
    ensures forall id | id in GraphOf(a) :: id in GraphOf(b) && GraphOf(a)[id] == GraphOf(b)[id]
  {
    forall id | id in GraphOf(a) ensures id in GraphOf(b) && GraphOf(a)[id] == GraphOf(b)[id] {
      var i :| 0 <= i < |a| && a[i].id == id;
      RequiresAt(a, i);
      assert Shapes(a)[i] in multiset(Shapes(b));
      var j :| 0 <= j < |b| && Shapes(b)[j] == Shapes(a)[i];
      RequiresAt(b, j);
    }
  }

  // ----- Layering by counting unmet requirements -----

  ghost predicate SoundNode(n: Node) {
    n.id != "" && n.activity != "" && Check(n.options).None?
  }

  /** What validation promises about a plan. */
  ghost predicate WellFormed(p: Plan) {
    && p.nodes != []
    && Check(p.defaults).None?
    && (forall i | 0 <= i < |p.nodes| :: SoundNode(p.nodes[i]))
    && UniqueIDs(p.nodes)
    && Closed(GraphOf(p.nodes))
    && Acyclic(GraphOf(p.nodes))
  }

  function At(m: map<NodeID, seq<NodeID>>, id: NodeID): seq<NodeID> {
    if id in m then m[id] else []
  }

  /** How many requirement entries of nodes called `id` name `req`. */
  ghost function EdgeCount(nodes: seq<Node>, req: NodeID, id: NodeID): nat {
    if nodes == [] then 0 else
      var last := nodes[|nodes| - 1];
      EdgeCount(nodes[..|nodes| - 1], req, id) + (if last.id == id then multiset(last.dependsOn)[req] else 0)
  }

  /** How many requirement entries, repetitions included, are not yet done. */
  ghost function Unmet(reqs: seq<NodeID>, done: set<NodeID>): (n: nat)
    ensures n <= |reqs|
  {
    if reqs == [] then 0 else
      Unmet(reqs[..|reqs| - 1], done) + (if reqs[|reqs| - 1] in done then 0 else 1)
  }

  lemma {:induction false} UnmetNone(reqs: seq<NodeID>, done: set<NodeID>)
    ensures Unmet(reqs, done) == 0 <==> Elements(reqs) <= done
  {
    if reqs == [] {
    } else {
      var init, last := reqs[..|reqs| - 1], reqs[|reqs| - 1];
      UnmetNone(init, done);
      assert reqs == init + [last];
      ElementsAppend(init, [last]);
    }
  }

  lemma {:induction false} UnmetInitially(reqs: seq<NodeID>)
    ensures Unmet(reqs, {}) == |reqs|
  {
    if reqs == [] {
    } else {
      UnmetInitially(reqs[..|reqs| - 1]);
    }
  }

  lemma {:induction false} UnmetAfter(reqs: seq<NodeID>, done: set<NodeID>, id: NodeID)
    requires id !in done
    ensures Unmet(reqs, done) == Unmet(reqs, done + {id}) + multiset(reqs)[id]
  {
    if reqs == [] {
    } else {
      var init, last := reqs[..|reqs| - 1], reqs[|reqs| - 1];
      UnmetAfter(init, done, id);
      assert reqs == init + [last];
    }
  }

  /** How many requirement entries of nodes called `id` name something in `done`. */
  ghost function Met(nodes: seq<Node>, id: NodeID, done: set<NodeID>): nat {
    if nodes == [] then 0 else
      Met(nodes[..|nodes| - 1], id, done) + MetBy(nodes[|nodes| - 1], id, done)
  }

  ghost function MetBy(n: Node, id: NodeID, done: set<NodeID>): nat {
    if n.id == id then |n.dependsOn| - Unmet(n.dependsOn, done) else 0
  }

  /** The entries of the last node called `id`, less those met by any node called so. */
  ghost function Pending(nodes: seq<Node>, id: NodeID, done: set<NodeID>): int {
    |RequiresOf(nodes, id)| - Met(nodes, id, done)
  }

  lemma {:induction false} MetInitially(nodes: seq<Node>, id: NodeID)
    ensures Met(nodes, id, {}) == 0
  {
    if nodes == [] {
    } else {
      MetInitially(nodes[..|nodes| - 1], id);
      UnmetInitially(nodes[|nodes| - 1].dependsOn);
    }
  }

  lemma {:induction false} MetAfter(nodes: seq<Node>, id: NodeID, done: set<NodeID>, x: NodeID)
    requires x !in done
    ensures Met(nodes, id, done + {x}) == Met(nodes, id, done) + EdgeCount(nodes, x, id)
  {
    if nodes == [] {
    } else {
      MetAfter(nodes[..|nodes| - 1], id, done, x);
      UnmetAfter(nodes[|nodes| - 1].dependsOn, done, x);
    }
  }

  /** Where identifiers are unique, what is pending is what the one node of that name still lacks. */
  lemma {:induction false} PendingUnique(nodes: seq<Node>, id: NodeID, done: set<NodeID>)
    requires UniqueIDs(nodes)
    ensures Pending(nodes, id, done) == Unmet(RequiresOf(nodes, id), done)
    ensures id !in IDs(nodes) ==> Met(nodes, id, done) == 0 && RequiresOf(nodes, id) == []
  {
    if nodes == [] {
    } else {
      var init, last := nodes[..|nodes| - 1], nodes[|nodes| - 1];
      PendingUnique(init, id, done);
      assert last in nodes;
      if last.id == id {
        assert id !in IDs(init);
      }
    }
  }

  /** The identifiers done after `k` rounds, repeated ones included. */
  ghost function Reached(nodes: seq<Node>, k: nat): set<NodeID> {
    if k == 0 then {} else Reached(nodes, k - 1) + Open(nodes, Reached(nodes, k - 1))
  }

  ghost function Open(nodes: seq<Node>, done: set<NodeID>): set<NodeID> {
    set id | id in IDs(nodes) && id !in done && Pending(nodes, id, done) == 0
  }

  /** A round that reaches nothing new is the last to matter. */
  lemma {:induction false} ReachedStuck(nodes: seq<Node>, k: nat, n: nat)
    requires Open(nodes, Reached(nodes, k)) == {} && k <= n
    ensures Reached(nodes, n) == Reached(nodes, k)
  {
    if n == k {
    } else {
      ReachedStuck(nodes, k, n - 1);
    }
  }

  /**
   * A permutation of the nodes that keeps, for every name, how much its last node requires keeps every
   * round, and so the result on plans with repeated identifiers too.
   */
  lemma {:induction false} ReachedIgnoresOrder(a: seq<Node>, b: seq<Node>, k: nat)
    requires multiset(a) == multiset(b) && forall id :: |RequiresOf(a, id)| == |RequiresOf(b, id)|
    ensures Reached(a, k) == Reached(b, k)
  {
    if k == 0 {
    } else {
      ReachedIgnoresOrder(a, b, k - 1);
      var done := Reached(a, k - 1);
      SameIDs(a, b);
      forall id ensures Pending(a, id, done) == Pending(b, id, done) {
        MetIgnoresOrder(a, b, id, done);
      }
    }
  }

  lemma SameIDs(a: seq<Node>, b: seq<Node>)
    requires multiset(a) == multiset(b)
    ensures IDs(a) == IDs(b) && |a| == |b|
  {
    assert |a| == |multiset(a)| && |b| == |multiset(b)|;
    assert forall n :: n in a <==> n in multiset(a);
    assert forall n :: n in b <==> n in multiset(b);
  }

  lemma StuckIgnoresOrder(a: seq<Node>, b: seq<Node>)
    requires multiset(a) == multiset(b) && forall id :: |RequiresOf(a, id)| == |RequiresOf(b, id)|
    ensures Stuck(a) == Stuck(b) && (UniqueIDs(a) <==> UniqueIDs(b))
  {
    hide Reached, RequiresOf, UniqueIDs, IDs;
    ReachedIgnoresOrder(a, b, |a|);
    SameIDs(a, b);
    IDCount(a);
    IDCount(b);
  }

  lemma {:induction false} MetIgnoresOrder(a: seq<Node>, b: seq<Node>, id: NodeID, done: set<NodeID>)
    requires multiset(a) == multiset(b)
    ensures Met(a, id, done) == Met(b, id, done)
    decreases |a|
  {
    if a == [] {
      assert |b| == |multiset(b)|;
    } else {
      var init, last := a[..|a| - 1], a[|a| - 1];
      assert a == init + [last];
      assert last in multiset(b);
      var i :| 0 <= i < |b| && b[i] == last;
      WithoutOne(a, |a| - 1);
      WithoutOne(b, i);
      assert a[..|a| - 1] + a[|a|..] == init;
      MetIgnoresOrder(init, b[..i] + b[i + 1..], id, done);
      MetWithout(b, i, id, done);
    }
  }

  lemma WithoutOne(nodes: seq<Node>, i: nat)
    requires i < |nodes|
    ensures multiset(nodes[..i] + nodes[i + 1..]) == multiset(nodes) - multiset{nodes[i]}
  {
    assert nodes == nodes[..i] + [nodes[i]] + nodes[i + 1..];
  }

  lemma {:induction false} MetWithout(nodes: seq<Node>, i: nat, id: NodeID, done: set<NodeID>)
    requires i < |nodes|
    ensures Met(nodes, id, done) == Met(nodes[..i] + nodes[i + 1..], id, done) + MetBy(nodes[i], id, done)
  {
    var n := |nodes| - 1;
    if i == n {
      assert nodes[..i] + nodes[i + 1..] == nodes[..n];
    } else {
      var rest := nodes[..i] + nodes[i + 1..];
      MetWithout(nodes[..n], i, id, done);
      assert rest[..n - 1] == nodes[..n][..i] + nodes[..n][i + 1..];
      assert rest[n - 1] == nodes[n];
    }
  }

  /** In general the order of equal names shows in the count: here two nodes remain, or one. */
  lemma RepeatedCountDependsOnOrder(n: Node, m: Node)
    requires n.id == m.id && n.dependsOn == [] && |m.dependsOn| == 1 && m.dependsOn[0] != n.id
    ensures multiset([n, m]) == multiset([m, n])
    ensures Stuck([n, m]) == Err(CycleDetected(2)) && Stuck([m, n]) == Err(CycleDetected(1))
  {
    assert [n, m][..1] == [n] && [m, n][..1] == [m];
    MetInitially([n, m], n.id);
    MetInitially([m, n], n.id);
    assert IDs([n, m]) == {n.id} == IDs([m, n]);
    assert Reached([n, m], 0) == {} == Reached([m, n], 0);
    assert Open([n, m], {}) == {} && Open([m, n], {}) == {n.id};
    assert Reached([n, m], 1) == {} && Reached([m, n], 1) == {n.id};
    assert Open([m, n], {n.id}) == {};
    assert Reached([n, m], 2) == {} && Reached([m, n], 2) == {n.id};
  }

  /** The two tables `Layers` starts from. */
  ghost predicate Tables(nodes: seq<Node>, indegree: map<NodeID, int>, dependents: map<NodeID, seq<NodeID>>) {
    && indegree.Keys == IDs(nodes)
    && (forall id | id in indegree :: indegree[id] == |RequiresOf(nodes, id)|)
    && DependentsOf(nodes, dependents)
  }

  /** `dependents[req]` lists a node once for each of its requirement entries naming `req`. */
  ghost predicate DependentsOf(nodes: seq<Node>, dependents: map<NodeID, seq<NodeID>>) {
    && (forall req, id :: multiset(At(dependents, req))[id] == EdgeCount(nodes, req, id))
    && (forall req, id | id in At(dependents, req) :: id in IDs(nodes))
  }

  method CountEdges(nodes: seq<Node>) returns (indegree: map<NodeID, int>, dependents: map<NodeID, seq<NodeID>>)
    ensures Tables(nodes, indegree, dependents)
  {
    indegree, dependents := map[], map[];
    for i := 0 to |nodes|
      invariant Tables(nodes[..i], indegree, dependents)
    {
      var n := nodes[i];
      ghost var before := nodes[..i];
      assert nodes[..i + 1][..i] == before;
      assert nodes[..i + 1] == before + [n];
      assert IDs(nodes[..i + 1]) == IDs(before) + {n.id};
      indegree := indegree[n.id := |n.dependsOn|];
      dependents := AddDependents(before, n, dependents);
    }
    assert nodes[..|nodes|] == nodes;
  }

  /** `dependents` also accounts for the first `j` requirements of one more node. */
  ghost predicate EdgesRecorded(before: seq<Node>, n: Node, j: nat, dependents: map<NodeID, seq<NodeID>>)
    requires j <= |n.dependsOn|
  {
    forall req, id :: multiset(At(dependents, req))[id] ==
      EdgeCount(before, req, id) + (if id == n.id then multiset(n.dependsOn[..j])[req] else 0)
  }

  lemma RecordOne(before: seq<Node>, n: Node, j: nat, dependents: map<NodeID, seq<NodeID>>,
      next: map<NodeID, seq<NodeID>>)
    requires j < |n.dependsOn| && EdgesRecorded(before, n, j, dependents)
    requires next == dependents[n.dependsOn[j] := At(dependents, n.dependsOn[j]) + [n.id]]
    ensures EdgesRecorded(before, n, j + 1, next)
    ensures forall req, id | id in At(next, req) :: id in At(dependents, req) || id == n.id
  {
    hide EdgeCount;
    forall req, id
      ensures multiset(At(next, req))[id] ==
        EdgeCount(before, req, id) + (if id == n.id then multiset(n.dependsOn[..j + 1])[req] else 0)
    {
      CountSnoc(n.dependsOn, j, req);
      AtSnoc(dependents, n.dependsOn[j], n.id, req, id);
    }
  }

  lemma AtSnoc(m: map<NodeID, seq<NodeID>>, r: NodeID, x: NodeID, req: NodeID, id: NodeID)
    ensures multiset(At(m[r := At(m, r) + [x]], req))[id]
            == multiset(At(m, req))[id] + (if req == r && id == x then 1 else 0)
  {
  }

  lemma CountSnoc(xs: seq<NodeID>, j: nat, x: NodeID)
    requires j < |xs|
    ensures multiset(xs[..j + 1])[x] == multiset(xs[..j])[x] + (if xs[j] == x then 1 else 0)
  {
    assert xs[..j + 1] == xs[..j] + [xs[j]];
  }

  method AddDependents(ghost before: seq<Node>, n: Node, dependents0: map<NodeID, seq<NodeID>>)
    returns (dependents: map<NodeID, seq<NodeID>>)
    requires DependentsOf(before, dependents0)
    ensures DependentsOf(before + [n], dependents)
  {
    dependents := dependents0;
    for j := 0 to |n.dependsOn|
      invariant EdgesRecorded(before, n, j, dependents)
      invariant forall req, id | id in At(dependents, req) :: id in IDs(before) || id == n.id
    {
      var req := n.dependsOn[j];
      RecordOne(before, n, j, dependents, dependents[req := At(dependents, req) + [n.id]]);
      dependents := dependents[req := At(dependents, req) + [n.id]];
    }
    assert n.dependsOn[..|n.dependsOn|] == n.dependsOn;
    EdgeCountAdds(before, n);
    assert IDs(before + [n]) == IDs(before) + {n.id};
  }

  lemma EdgeCountAdds(before: seq<Node>, n: Node)
    ensures forall req, id :: EdgeCount(before + [n], req, id)
              == EdgeCount(before, req, id) + (if id == n.id then multiset(n.dependsOn)[req] else 0)
  {
    assert (before + [n])[..|before|] == before;
  }

  ghost function Ready(indegree: map<NodeID, int>, done: set<NodeID>): set<NodeID> {
    set id | id in indegree && indegree[id] == 0 && id !in done
  }

  /** The identifiers ready to run, visited in whatever order the map yields them. */
  method Runnable(indegree: map<NodeID, int>, done: set<NodeID>) returns (layer: seq<NodeID>)
    ensures layer == Listing(Ready(indegree, done))
  {
    layer := [];
    var unvisited := indegree.Keys;
    while unvisited != {}
      invariant unvisited <= indegree.Keys
      invariant Distinct(layer)
      invariant Elements(layer) == set id | id in indegree.Keys - unvisited && indegree[id] == 0 && id !in done
    {
      var id :| id in unvisited;
      if indegree[id] == 0 && id !in done {
        ElementsAppend(layer, [id]);
        assert id !in Elements(layer);
        layer := layer + [id];
      }
      unvisited := unvisited - {id};
    }
    layer := SortStrings(layer);
    assert (set id | id in indegree.Keys - {} && indegree[id] == 0 && id !in done) == Ready(indegree, done);
  }

  /** Every in-degree is the number of pending requirement entries. */
  ghost predicate Counting(nodes: seq<Node>, indegree: map<NodeID, int>, done: set<NodeID>) {
    forall id | id in indegree :: indegree[id] == Pending(nodes, id, done)
  }

  /** Marks a layer done and decrements the in-degree of its dependents. */
  method Retire(nodes: seq<Node>, dependents: map<NodeID, seq<NodeID>>, layer: seq<NodeID>,
                indegree0: map<NodeID, int>, done0: set<NodeID>)
    returns (indegree: map<NodeID, int>, done: set<NodeID>)
    requires DependentsOf(nodes, dependents) && indegree0.Keys == IDs(nodes)
    requires Distinct(layer) && Elements(layer) !! done0
    ensures done == done0 + Elements(layer) && indegree.Keys == IDs(nodes)
    ensures Counting(nodes, indegree0, done0) ==> Counting(nodes, indegree, done)
  {
    indegree, done := indegree0, done0;
    ghost var counted := Counting(nodes, indegree0, done0);
    for i := 0 to |layer|
      invariant done == done0 + Elements(layer[..i]) && indegree.Keys == IDs(nodes)
      invariant counted ==> Counting(nodes, indegree, done)
    {
      var id := layer[i];
      assert layer[..i + 1] == layer[..i] + [id];
      ElementsAppend(layer[..i], [id]);
      assert id in Elements(layer) && id !in Elements(layer[..i]);
      ghost var start := indegree;
      indegree := Decrement(nodes, At(dependents, id), indegree);
      if counted {
        OneLess(nodes, dependents, start, indegree, done, id);
      }
      done := done + {id};
    }
    assert layer[..|layer|] == layer;
  }

  method Decrement(ghost nodes: seq<Node>, deps: seq<NodeID>, indegree0: map<NodeID, int>)
    returns (indegree: map<NodeID, int>)
    requires indegree0.Keys == IDs(nodes) && forall id | id in deps :: id in IDs(nodes)
    ensures indegree.Keys == IDs(nodes)
    ensures forall x | x in indegree :: indegree[x] == indegree0[x] - multiset(deps)[x]
  {
    indegree := indegree0;
    for j := 0 to |deps|
      invariant indegree.Keys == IDs(nodes)
      invariant forall x | x in indegree :: indegree[x] == indegree0[x] - multiset(deps[..j])[x]
    {
      assert deps[j] in deps;
      assert deps[..j + 1] == deps[..j] + [deps[j]];
      indegree := indegree[deps[j] := indegree[deps[j]] - 1];
    }
    assert deps[..|deps|] == deps;
  }

  lemma OneLess(nodes: seq<Node>, dependents: map<NodeID, seq<NodeID>>, start: map<NodeID, int>,
                indegree: map<NodeID, int>, done: set<NodeID>, id: NodeID)
    requires DependentsOf(nodes, dependents) && id !in done
    requires Counting(nodes, start, done) && indegree.Keys == start.Keys
    requires forall x | x in indegree :: indegree[x] == start[x] - multiset(At(dependents, id))[x]
    ensures Counting(nodes, indegree, done + {id})
  {
    forall x | x in indegree ensures indegree[x] == Pending(nodes, x, done + {id}) {
      MetAfter(nodes, x, done, id);
    }
  }

  /** A node is ready exactly when it is in the next layer of the graph. */
  lemma ReadyIsLayer(nodes: seq<Node>, indegree: map<NodeID, int>, k: nat)
    requires UniqueIDs(nodes) && indegree.Keys == IDs(nodes)
    requires Counting(nodes, indegree, Within(GraphOf(nodes), k))
    ensures Ready(indegree, Within(GraphOf(nodes), k)) == Layer(GraphOf(nodes), k)
  {
    var g := GraphOf(nodes);
    forall id | id in indegree
      ensures indegree[id] == 0 <==> id in Within(g, k + 1)
    {
      PendingUnique(nodes, id, Within(g, k));
      UnmetNone(RequiresOf(nodes, id), Within(g, k));
    }
    WithinGrows(g, k + 1);
  }

  /** What is known after `|layers|` rounds. */
  ghost predicate Peeling(nodes: seq<Node>, indegree: map<NodeID, int>, done: set<NodeID>, layers: seq<seq<NodeID>>) {
    && indegree.Keys == IDs(nodes) && Counting(nodes, indegree, done) && done == Reached(nodes, |layers|)
    && (UniqueIDs(nodes) ==> done == Within(GraphOf(nodes), |layers|) && Peeled(GraphOf(nodes), layers))
  }

  lemma ReadyIsOpen(nodes: seq<Node>, indegree: map<NodeID, int>, done: set<NodeID>)
    requires indegree.Keys == IDs(nodes) && Counting(nodes, indegree, done)
    ensures Ready(indegree, done) == Open(nodes, done)
  {
  }

  lemma NextLayer(nodes: seq<Node>, indegree: map<NodeID, int>, done: set<NodeID>, layers: seq<seq<NodeID>>,
      layer: seq<NodeID>, next: map<NodeID, int>)
    requires Peeling(nodes, indegree, done, layers) && layer != [] && layer == Listing(Ready(indegree, done))
    requires next.Keys == IDs(nodes) && Counting(nodes, next, done + Elements(layer))
    ensures Peeling(nodes, next, done + Elements(layer), layers + [layer])
  {
    hide Counting, Ready, Open, Within, Layer, Peeled, UniqueIDs, GraphOf, Listing, IDs;
    ListingSound(Ready(indegree, done));
    ReadyIsOpen(nodes, indegree, done);
    if UniqueIDs(nodes) {
      ReadyIsLayer(nodes, indegree, |layers|);
      PeelStep(GraphOf(nodes), layers, layer, |layers|);
    }
  }

  ghost function Expected(g: Graph): Result<seq<seq<NodeID>>, PlanError> {
    match LayersOf(g)
    case Ok(ls) => Ok(ls)
    case Err(n) => Err(CycleDetected(n))
  }

  /** What peeling ends in when it does not succeed: the cycle error, with the number of nodes left. */
  ghost function Stuck(nodes: seq<Node>): Result<seq<seq<NodeID>>, PlanError> {
    Err(CycleDetected(|nodes| - |Reached(nodes, |nodes|)|))
  }

  /**
   * Topological layers. The result is the one `LayersOf` defines, whatever order the maps are
   * iterated in; repeated identifiers always end in the cycle error.
   */
  method Layers(nodes: seq<Node>) returns (r: Result<seq<seq<NodeID>>, PlanError>)
    ensures r.Err? ==> r == Stuck(nodes)
    ensures UniqueIDs(nodes) ==> r == Expected(GraphOf(nodes))
    ensures r.Ok? <==> UniqueIDs(nodes) && Closed(GraphOf(nodes)) && Acyclic(GraphOf(nodes))
    ensures r.Ok? ==> forall k, i, j | 0 <= k < |r.value| && 0 <= i < j < |r.value[k]| ::
              Before(r.value[k][i], r.value[k][j])
  {
    LayersOfSucceeds(GraphOf(nodes));
    r := Peel(nodes);
    if r.Ok? {
      LayersAscend(GraphOf(nodes), r.value);
    }
  }

  lemma LayersAscend(g: Graph, ls: seq<seq<NodeID>>)
    requires LayersOf(g) == Ok(ls)
    ensures forall k, i, j | 0 <= k < |ls| && 0 <= i < j < |ls[k]| :: Before(ls[k][i], ls[k][j])
  {
    LayersOfMeaning(g, ls);
    forall k | 0 <= k < |ls| ensures forall i, j | 0 <= i < j < |ls[k]| :: Before(ls[k][i], ls[k][j]) {
      AscendingBefore(ls[k]);
    }
  }

  /** The counting loop itself. */
  method Peel(nodes: seq<Node>) returns (r: Result<seq<seq<NodeID>>, PlanError>)
    ensures r.Err? ==> r == Stuck(nodes)
    ensures UniqueIDs(nodes) ==> r == Expected(GraphOf(nodes))
    ensures r.Ok? ==> UniqueIDs(nodes)
  {
    hide Peeling, Expected, Stuck;
    var indegree, dependents := CountEdges(nodes);
    var done: set<NodeID> := {};
    var layers: seq<seq<NodeID>> := [];
    var remaining := |nodes|;
    FirstRound(nodes, indegree);
    while remaining > 0
      invariant indegree.Keys == IDs(nodes) && done <= IDs(nodes)
      invariant remaining == |nodes| - |done|
      invariant |layers| <= |done|
      invariant Peeling(nodes, indegree, done, layers)
      decreases remaining
    {
      var layer := Runnable(indegree, done);
      ListingSound(Ready(indegree, done));
      if |layer| == 0 {
        StuckResult(nodes, indegree, done, layers);
        return Err(CycleDetected(remaining));
      }
      LayerSize(layer, done, IDs(nodes));
      PeelingCounts(nodes, indegree, done, layers);
      ghost var before, retired := indegree, done;
      indegree, done := Retire(nodes, dependents, layer, indegree, done);
      NextLayer(nodes, before, retired, layers, layer, indegree);
      layers := layers + [layer];
      remaining := remaining - |layer|;
    }
    DoneResult(nodes, indegree, done, layers);
    return Ok(layers);
  }

  lemma FirstRound(nodes: seq<Node>, indegree: map<NodeID, int>)
    requires indegree.Keys == IDs(nodes) && forall id | id in indegree :: indegree[id] == |RequiresOf(nodes, id)|
    ensures Peeling(nodes, indegree, {}, [])
  {
    forall id | id in indegree ensures indegree[id] == Pending(nodes, id, {}) {
      MetInitially(nodes, id);
    }
  }

  lemma PeelingCounts(nodes: seq<Node>, indegree: map<NodeID, int>, done: set<NodeID>, layers: seq<seq<NodeID>>)
    requires Peeling(nodes, indegree, done, layers)
    ensures indegree.Keys == IDs(nodes) && Counting(nodes, indegree, done) && done == Reached(nodes, |layers|)
    ensures UniqueIDs(nodes) ==> done == Within(GraphOf(nodes), |layers|)
  {
  }

  lemma StuckResult(nodes: seq<Node>, indegree: map<NodeID, int>, done: set<NodeID>, layers: seq<seq<NodeID>>)
    requires Peeling(nodes, indegree, done, layers) && Ready(indegree, done) == {}
    requires |layers| <= |done| < |nodes| && done <= IDs(nodes)
    ensures Stuck(nodes) == Err(CycleDetected(|nodes| - |done|))
    ensures UniqueIDs(nodes) ==> Expected(GraphOf(nodes)) == Stuck(nodes)
  {
    hide Peeling, Counting, Ready, Open, Reached, Expected, Within, UniqueIDs, GraphOf;
    PeelingCounts(nodes, indegree, done, layers);
    ReadyIsOpen(nodes, indegree, done);
    IDCount(nodes);
    SubsetSize(done, IDs(nodes));
    ReachedStuck(nodes, |layers|, |nodes|);
    if UniqueIDs(nodes) {
      StuckGraph(nodes, indegree, done, |layers|);
    }
  }

  lemma StuckGraph(nodes: seq<Node>, indegree: map<NodeID, int>, done: set<NodeID>, k: nat)
    requires UniqueIDs(nodes) && indegree.Keys == IDs(nodes) && Counting(nodes, indegree, done)
    requires done == Within(GraphOf(nodes), k) && Ready(indegree, done) == {} && k <= |done| < |nodes|
    ensures Expected(GraphOf(nodes)) == Err(CycleDetected(|nodes| - |done|))
  {
    hide Counting, Ready, GraphOf, UniqueIDs, IDs, Within, Layer;
    var g := GraphOf(nodes);
    ReadyIsLayer(nodes, indegree, k);
    IDCount(nodes);
    GraphKeys(nodes);
    EmptyLayer(g, k);
    WithinStuck(g, k, |g|);
  }

  lemma DoneResult(nodes: seq<Node>, indegree: map<NodeID, int>, done: set<NodeID>, layers: seq<seq<NodeID>>)
    requires Peeling(nodes, indegree, done, layers) && |layers| <= |done| && done <= IDs(nodes)
    requires |nodes| <= |done|
    ensures UniqueIDs(nodes) && Expected(GraphOf(nodes)) == Ok(layers)
  {
    IDCount(nodes);
    SubsetSize(done, IDs(nodes));
    EqualBySize(done, IDs(nodes));
    GraphKeys(nodes);
    PeelDone(GraphOf(nodes), layers);
  }

  lemma LayerSize(layer: seq<NodeID>, done: set<NodeID>, ids: set<NodeID>)
    requires Ascending(layer) && Elements(layer) <= ids && done <= ids && Elements(layer) !! done
    ensures Distinct(layer)
    ensures |done + Elements(layer)| == |done| + |layer|
    ensures |done| + |layer| <= |ids|
    ensures done + Elements(layer) <= ids
    ensures layer != [] ==> |layer| > 0
  {
    AscendingDistinct(layer);
    DistinctSize(layer);
    SubsetSize(done + Elements(layer), ids);
  }

  lemma AscendingDistinct(xs: seq<string>)
    requires Ascending(xs)
    ensures Distinct(xs)
  {
    forall i, j | 0 <= i < j < |xs| ensures xs[i] != xs[j] {
      LessIrreflexive(xs[i]);
    }
  }

  lemma EqualBySize<T>(a: set<T>, b: set<T>)
    requires a <= b && |a| == |b|
    ensures a == b
  {
    if a != b {
      Subset(a, b);
    }
  }

  // ----- Validation and lookups -----

  /** The error names the first defect the plan has: no nodes, the defaults, its nodes, its edges, a cycle. */
  ghost predicate Explains(p: Plan, e: PlanError) {
    match e
    case NoNodes => p.nodes == []
    case BadDefaults(o) => p.nodes != [] && Check(p.defaults) == Some(o)
    case UnknownRequirement(_, _) => SoundNodes(p) && FirstEdgeFault(p.nodes, e)
    case SelfRequirement(_) => SoundNodes(p) && FirstEdgeFault(p.nodes, e)
    case CycleDetected(n) =>
      && SoundNodes(p) && Closed(GraphOf(p.nodes)) && !Acyclic(GraphOf(p.nodes))
      && LayersOf(GraphOf(p.nodes)) == Err(n)
    case _ => p.nodes != [] && Check(p.defaults).None? && FirstNodeFault(p.nodes, e)
  }

  ghost predicate SoundNodes(p: Plan) {
    p.nodes != [] && Check(p.defaults).None? && UniqueIDs(p.nodes)
      && forall i | 0 <= i < |p.nodes| :: SoundNode(p.nodes[i])
  }

  /** The `i`-th node is named like none before it. */
  ghost predicate New(nodes: seq<Node>, i: nat)
    requires i < |nodes|
  {
    forall j | 0 <= j < i :: nodes[j].id != nodes[i].id
  }

  /** What is wrong with the `i`-th node: its name, then its name's uniqueness, its activity, its options. */
  ghost predicate NodeFault(nodes: seq<Node>, i: nat, e: PlanError)
    requires i < |nodes|
  {
    var n := nodes[i];
    match e
    case EmptyID => n.id == ""
    case DuplicateID(id) => n.id == id != "" && !New(nodes, i)
    case NoActivity(id) => n.id == id != "" && New(nodes, i) && n.activity == ""
    case BadOptions(id, o) => n.id == id != "" && New(nodes, i) && n.activity != "" && Check(n.options) == Some(o)
    case _ => false
  }

  ghost predicate FirstNodeFault(nodes: seq<Node>, e: PlanError) {
    exists i: nat ::
      i < |nodes| && NodeFault(nodes, i, e) && forall j: nat | j < i :: SoundNode(nodes[j]) && New(nodes, j)
  }

  /** A requirement that names no node, or its own. */
  ghost predicate EdgeFault(nodes: seq<Node>, i: nat, j: nat, e: PlanError)
    requires i < |nodes| && j < |nodes[i].dependsOn|
  {
    var id, req := nodes[i].id, nodes[i].dependsOn[j];
    if req !in IDs(nodes) then e == UnknownRequirement(id, req) else req == id && e == SelfRequirement(id)
  }

  ghost predicate GoodEdges(nodes: seq<Node>, i: nat, count: nat)
    requires i < |nodes| && count <= |nodes[i].dependsOn|
  {
    forall k | 0 <= k < count :: nodes[i].dependsOn[k] in IDs(nodes) && nodes[i].dependsOn[k] != nodes[i].id
  }

  ghost predicate FirstEdgeFault(nodes: seq<Node>, e: PlanError) {
    exists i: nat, j: nat ::
      && i < |nodes| && j < |nodes[i].dependsOn| && EdgeFault(nodes, i, j, e) && GoodEdges(nodes, i, j)
      && forall k: nat | k < i :: GoodEdges(nodes, k, |nodes[k].dependsOn|)
  }

  lemma IDsSnoc(nodes: seq<Node>, i: nat)
    requires i < |nodes|
    ensures IDs(nodes[..i + 1]) == IDs(nodes[..i]) + {nodes[i].id}
  {
    assert nodes[..i + 1] == nodes[..i] + [nodes[i]];
  }

  lemma NewName(nodes: seq<Node>, i: nat)
    requires i < |nodes|
    ensures New(nodes, i) <==> nodes[i].id !in IDs(nodes[..i])
  {
    if nodes[i].id in IDs(nodes[..i]) {
      var m :| m in nodes[..i] && m.id == nodes[i].id;
      var k :| 0 <= k < i && nodes[k] == m;
    } else {
      forall j | 0 <= j < i ensures nodes[j].id != nodes[i].id {
        assert nodes[j] in nodes[..i];
      }
    }
  }

  method ValidateNodes(p: Plan) returns (r: Result<set<NodeID>, PlanError>)
    ensures r.Err? ==> FirstNodeFault(p.nodes, r.error)
    ensures r.Ok? <==> UniqueIDs(p.nodes) && forall i | 0 <= i < |p.nodes| :: SoundNode(p.nodes[i])
    ensures r.Ok? ==> r.value == IDs(p.nodes)
  {
    var ids: set<NodeID> := {};
    for i := 0 to |p.nodes|
      invariant ids == IDs(p.nodes[..i])
      invariant UniqueIDs(p.nodes[..i])
      invariant forall k: nat | k < i :: SoundNode(p.nodes[k]) && New(p.nodes, k)
    {
      var n := p.nodes[i];
      assert n in p.nodes;
      IDsSnoc(p.nodes, i);
      if n.id == "" {
        assert NodeFault(p.nodes, i, EmptyID);
        return Err(EmptyID);
      }
      NewName(p.nodes, i);
      if n.id in ids {
        assert NodeFault(p.nodes, i, DuplicateID(n.id));
        return Err(DuplicateID(n.id));
      }
      if n.activity == "" {
        assert NodeFault(p.nodes, i, NoActivity(n.id));
        return Err(NoActivity(n.id));
      }
      var fault := Check(n.options);
      if fault.Some? {
        assert NodeFault(p.nodes, i, BadOptions(n.id, fault.value));
        return Err(BadOptions(n.id, fault.value));
      }
      ids := ids + {n.id};
    }
    assert p.nodes[..|p.nodes|] == p.nodes;
    return Ok(ids);
  }

  method ValidateRequirements(p: Plan, ids: set<NodeID>) returns (r: Result<(), PlanError>)
    requires UniqueIDs(p.nodes) && ids == IDs(p.nodes)
    ensures r.Err? ==> FirstEdgeFault(p.nodes, r.error)
    ensures r.Err? ==> r.error.UnknownRequirement? || r.error.SelfRequirement?
    ensures r.Ok? <==> Closed(GraphOf(p.nodes)) && forall n | n in p.nodes :: n.id !in n.dependsOn
  {
    for i := 0 to |p.nodes|
      invariant forall k | 0 <= k < i :: Elements(p.nodes[k].dependsOn) <= ids && p.nodes[k].id !in p.nodes[k].dependsOn
      invariant forall k: nat | k < i :: GoodEdges(p.nodes, k, |p.nodes[k].dependsOn|)
    {
      var n := p.nodes[i];
      assert n in p.nodes;
      RequiresAt(p.nodes, i);
      for j := 0 to |n.dependsOn|
        invariant GoodEdges(p.nodes, i, j)
      {
        var req := n.dependsOn[j];
        assert req in GraphOf(p.nodes)[n.id];
        if req !in ids {
          assert EdgeFault(p.nodes, i, j, UnknownRequirement(n.id, req));
          return Err(UnknownRequirement(n.id, req));
        }
        if req == n.id {
          assert EdgeFault(p.nodes, i, j, SelfRequirement(n.id));
          return Err(SelfRequirement(n.id));
        }
      }
    }
    forall id | id in GraphOf(p.nodes) ensures GraphOf(p.nodes)[id] <= ids {
      var k :| 0 <= k < |p.nodes| && p.nodes[k].id == id;
      RequiresAt(p.nodes, k);
    }
    return Ok(());
  }

  /** A cycle of requirements, node by node. */
  ghost predicate NodeCycle(nodes: seq<Node>, c: seq<Node>) {
    && |c| >= 2 && c[0] == c[|c| - 1] && (forall i | 0 <= i < |c| :: c[i] in nodes)
    && forall i | 0 < i < |c| :: c[i - 1].id in c[i].dependsOn
  }

  /** What validation promises, read off the nodes themselves. */
  lemma WellFormedMeans(p: Plan)
    ensures WellFormed(p) <==>
      && p.nodes != []
      && p.defaults.timeout >= 0 && p.defaults.heartbeat >= 0 && p.defaults.maxAttempts >= 0
      && (forall n | n in p.nodes ::
            && n.id != "" && n.activity != ""
            && n.options.timeout >= 0 && n.options.heartbeat >= 0 && n.options.maxAttempts >= 0)
      && (forall i, j | 0 <= i < j < |p.nodes| :: p.nodes[i].id != p.nodes[j].id)
      && (forall n, req | n in p.nodes && req in n.dependsOn :: exists m :: m in p.nodes && m.id == req)
      && (forall c :: !NodeCycle(p.nodes, c))
  {
    assert (forall i | 0 <= i < |p.nodes| :: SoundNode(p.nodes[i])) <==> forall n | n in p.nodes :: SoundNode(n);
    if UniqueIDs(p.nodes) {
      ClosedMeans(p.nodes);
      CyclesMean(p.nodes);
    }
  }

  lemma ClosedMeans(nodes: seq<Node>)
    requires UniqueIDs(nodes)
    ensures Closed(GraphOf(nodes)) <==>
            forall n, req | n in nodes && req in n.dependsOn :: exists m :: m in nodes && m.id == req
  {
    var g := GraphOf(nodes);
    forall n | n in nodes ensures n.id in g && g[n.id] == Elements(n.dependsOn) {
      var i :| 0 <= i < |nodes| && nodes[i] == n;
      RequiresAt(nodes, i);
    }
    if Closed(g) {
      forall n, req | n in nodes && req in n.dependsOn ensures exists m :: m in nodes && m.id == req {
        assert req in g[n.id];
      }
    } else {
      var id, req :| id in g && req in g[id] && req !in g.Keys;
      var n :| n in nodes && n.id == id;
      assert req in n.dependsOn && forall m | m in nodes :: m.id != req;
    }
  }

  lemma CyclesMean(nodes: seq<Node>)
    requires UniqueIDs(nodes)
    ensures Acyclic(GraphOf(nodes)) <==> forall c :: !NodeCycle(nodes, c)
  {
    var g := GraphOf(nodes);
    if c: seq<Node> :| NodeCycle(nodes, c) {
      var ids := seq(|c|, i requires 0 <= i < |c| => c[i].id);
      forall i | 0 <= i < |c| ensures ids[i] in g && g[ids[i]] == Elements(c[i].dependsOn) {
        var k :| 0 <= k < |nodes| && nodes[k] == c[i];
        RequiresAt(nodes, k);
      }
      assert Cycle(g, ids);
    }
    if ids: seq<NodeID> :| Cycle(g, ids) {
      var c := NodesOf(nodes, ids);
      forall i | 0 < i < |c| ensures c[i - 1].id in c[i].dependsOn {
        assert ids[i - 1] in g[ids[i]];
      }
      assert NodeCycle(nodes, c);
    }
  }

  lemma {:induction false} NodesOf(nodes: seq<Node>, ids: seq<NodeID>) returns (c: seq<Node>)
    requires UniqueIDs(nodes) && forall id | id in ids :: id in GraphOf(nodes)
    ensures |c| == |ids|
    ensures forall i | 0 <= i < |c| ::
              c[i] in nodes && c[i].id == ids[i] && GraphOf(nodes)[ids[i]] == Elements(c[i].dependsOn)
    ensures forall i, j | 0 <= i < |c| && 0 <= j < |c| && ids[i] == ids[j] :: c[i] == c[j]
  {
    c := [];
    while |c| < |ids|
      invariant |c| <= |ids|
      invariant forall i | 0 <= i < |c| ::
                  c[i] in nodes && c[i].id == ids[i] && GraphOf(nodes)[ids[i]] == Elements(c[i].dependsOn)
    {
      assert ids[|c|] in GraphOf(nodes);
      var n :| n in nodes && n.id == ids[|c|];
      var k :| 0 <= k < |nodes| && nodes[k] == n;
      RequiresAt(nodes, k);
      c := c + [n];
    }
  }

  /** Accepts exactly the well-formed plans, and blames a rejected one for the first defect it has. */
  method Validate(p: Plan) returns (r: Result<(), PlanError>)
    ensures r.Ok? <==> WellFormed(p)
    ensures r.Err? ==> Explains(p, r.error)
  {
    if |p.nodes| == 0 {
      return Err(NoNodes);
    }
    var fault := Check(p.defaults);
    if fault.Some? {
      return Err(BadDefaults(fault.value));
    }
    var ids := ValidateNodes(p);
    if ids.Err? {
      return Err(ids.error);
    }
    r := ValidateRequirements(p, ids.value);
    if r.Err? {
      if n :| n in p.nodes && n.id in n.dependsOn {
        SelfRequirementIsCycle(p.nodes, n.id);
      }
      return;
    }
    var layers := Layers(p.nodes);
    LayersOfSucceeds(GraphOf(p.nodes));
    if layers.Err? {
      return Err(layers.error);
    }
    return Ok(());
  }

  lemma SelfRequirementIsCycle(nodes: seq<Node>, id: NodeID)
    requires UniqueIDs(nodes) && exists n :: n in nodes && n.id == id && id in n.dependsOn
    ensures !Acyclic(GraphOf(nodes))
  {
    var n :| n in nodes && n.id == id && id in n.dependsOn;
    var i :| 0 <= i < |nodes| && nodes[i] == n;
    RequiresAt(nodes, i);
    assert Cycle(GraphOf(nodes), [id, id]);
  }

  /** The node with a given ID, by scanning in order. */
  method FindNode(nodes: seq<Node>, id: NodeID) returns (r: Option<Node>)
    ensures r.None? <==> id !in IDs(nodes)
    ensures r.Some? ==> r.value in nodes && r.value.id == id
    ensures forall i | 0 <= i < |nodes| && nodes[i].id == id && (forall j | 0 <= j < i :: nodes[j].id != id) ::
              r == Some(nodes[i])
  {
    for i := 0 to |nodes|
      invariant forall j | 0 <= j < i :: nodes[j].id != id
    {
      if nodes[i].id == id {
        return Some(nodes[i]);
      }
    }
    return None;
  }

  /** The nodes nothing requires, sorted. */
  method Leaves(nodes: seq<Node>) returns (leaves: seq<NodeID>)
    ensures forall i, j | 0 <= i < j < |leaves| :: !Before(leaves[j], leaves[i])
    ensures Sorted(leaves)
    ensures forall id :: id in leaves <==> id in IDs(nodes) && forall n | n in nodes :: id !in n.dependsOn
    ensures UniqueIDs(nodes) ==>
              leaves == Listing(Unrequired(GraphOf(nodes)))
  {
    var hasDependents: set<NodeID> := {};
    for i := 0 to |nodes|
      invariant forall id :: id in hasDependents <==> exists k :: 0 <= k < i && id in nodes[k].dependsOn
    {
      hasDependents := hasDependents + (set req | req in nodes[i].dependsOn);
    }
    var out: seq<NodeID> := [];
    for i := 0 to |nodes|
      invariant forall id :: id in out <==> id !in hasDependents && exists k :: 0 <= k < i && nodes[k].id == id
      invariant UniqueIDs(nodes) ==> Distinct(out)
    {
      if nodes[i].id !in hasDependents {
        out := out + [nodes[i].id];
      }
    }
    leaves := SortStrings(out);
    LeavesAre(nodes, hasDependents, out, leaves);
  }

  lemma LeavesAre(nodes: seq<Node>, hasDependents: set<NodeID>, out: seq<NodeID>, leaves: seq<NodeID>)
    requires forall id :: id in hasDependents <==> exists k :: 0 <= k < |nodes| && id in nodes[k].dependsOn
    requires forall id :: id in out <==> id !in hasDependents && exists k :: 0 <= k < |nodes| && nodes[k].id == id
    requires multiset(leaves) == multiset(out)
    ensures forall id :: id in leaves <==> id in IDs(nodes) && forall n | n in nodes :: id !in n.dependsOn
    ensures UniqueIDs(nodes) ==> Elements(out) == Unrequired(GraphOf(nodes))
  {
    forall id ensures id in leaves <==> id in IDs(nodes) && forall n | n in nodes :: id !in n.dependsOn {
      assert id in leaves <==> id in multiset(leaves);
      assert id in out <==> id in multiset(out);
      IndexedNodes(nodes, id);
    }
    if UniqueIDs(nodes) {
      forall id ensures id in out <==> id in Unrequired(GraphOf(nodes)) {
        RequiredIffInGraph(nodes, id);
      }
      assert Elements(out) == Unrequired(GraphOf(nodes));
    }
  }

  /** The graph's sinks. */
  ghost function Unrequired(g: Graph): set<NodeID> {
    set id | id in g && forall other | other in g :: id !in g[other]
  }

  lemma IndexedNodes(nodes: seq<Node>, id: NodeID)
    ensures id in IDs(nodes) <==> exists k :: 0 <= k < |nodes| && nodes[k].id == id
    ensures (exists n :: n in nodes && id in n.dependsOn) <==> exists k :: 0 <= k < |nodes| && id in nodes[k].dependsOn
  {
    if k :| 0 <= k < |nodes| && nodes[k].id == id {
      assert nodes[k] in nodes;
    }
    if k :| 0 <= k < |nodes| && id in nodes[k].dependsOn {
      assert nodes[k] in nodes;
    }
  }

  lemma RequiredIffInGraph(nodes: seq<Node>, id: NodeID)
    requires UniqueIDs(nodes)
    ensures (exists k :: 0 <= k < |nodes| && id in nodes[k].dependsOn)
            <==> exists other :: other in GraphOf(nodes) && id in GraphOf(nodes)[other]
  {
    if k :| 0 <= k < |nodes| && id in nodes[k].dependsOn {
      RequiresAt(nodes, k);
      assert id in GraphOf(nodes)[nodes[k].id];
    }
    if other :| other in GraphOf(nodes) && id in GraphOf(nodes)[other] {
      var k :| 0 <= k < |nodes| && nodes[k].id == other;
      RequiresAt(nodes, k);
    }
  }
}
