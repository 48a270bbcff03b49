/** Whole runs of the broker: what every subscriber receives, what is lost, and when a run panics. */
module BrokerRuns {
  import opened Ordering
  import opened Broker

  /** The state after a run of calls; none once a call has panicked. */
  function After(ops: seq<Op>): Option<State> {
    if ops == [] then Some(INITIAL)
    else match After(ops[..|ops| - 1])
         case None => None
         case Some(s) => Step(s, ops[|ops| - 1])
  }

  // ----- What a run asks for, read off the calls alone -----

  /** The scopes asked for, in order; a subscription's place in it is its number. */
  ghost function Scopes(ops: seq<Op>): seq<Option<string>> {
    if ops == [] then []
    else
      var pre := Scopes(ops[..|ops| - 1]);
      match ops[|ops| - 1]
      case Subscribe(scope, _) => pre + [scope]
      case _ => pre
  }

  /** The subscriptions neither cancelled nor shut by the first `Close`. */
  ghost function Live(ops: seq<Op>): (live: set<SubId>)
    ensures forall id | id in live :: id < |Scopes(ops)|
  {
    if ops == [] then {}
    else
      var pre := ops[..|ops| - 1];
      match ops[|ops| - 1]
      case Subscribe(_, _) => Live(pre) + {|Scopes(pre)|}
      case Cancel(id) => Live(pre) - {id}
      case Close => if Close in pre then Live(pre) else {}
      case _ => Live(pre)
  }

  /** How many events each subscription may leave untaken: what was asked for, or 64, or 256 for all workflows. */
  ghost function Capacities(ops: seq<Op>): (capacities: seq<nat>)
    ensures |capacities| == |Scopes(ops)|
  {
    if ops == [] then []
    else
      var pre := Capacities(ops[..|ops| - 1]);
      match ops[|ops| - 1]
      case Subscribe(scope, buffer) => pre + [if buffer > 0 then buffer else if scope == None then 256 else 64]
      case _ => pre
  }

  /** The live subscriptions an event is meant for: those of its workflow and those of all. */
  ghost function Audience(ops: seq<Op>, e: Event): set<SubId> {
    set id | id in Live(ops) && (Scopes(ops)[id] == Some(e.workflow) || Scopes(ops)[id] == None)
  }

  /** The events meant for subscription `id`, in the order they were published. */
  ghost function Offers(ops: seq<Op>, id: SubId): seq<Event> {
    if ops == [] then []
    else
      var pre := ops[..|ops| - 1];
      match ops[|ops| - 1]
      case Publish(e) => if Close !in pre && id in Audience(pre, e) then Offers(pre, id) + [e] else Offers(pre, id)
      case _ => Offers(pre, id)
  }

  /** Those of them that were published while fewer accepted events were untaken than `id` has room for. */
  ghost function Accepted(ops: seq<Op>, id: SubId): seq<Event>
    decreases |ops|, 0
  {
    if ops == [] then []
    else
      var pre := ops[..|ops| - 1];
      match ops[|ops| - 1]
      case Publish(e) =>
        if Close !in pre && id in Audience(pre, e) && HasRoom(pre, id) then Accepted(pre, id) + [e]
        else Accepted(pre, id)
      case _ => Accepted(pre, id)
  }

  /** How many of the accepted events have been taken: one by each receive that found one. */
  ghost function TakenBy(ops: seq<Op>, id: SubId): nat
    decreases |ops|, 0
  {
    if ops == [] then 0
    else
      var pre := ops[..|ops| - 1];
      TakenBy(pre, id) + if ops[|ops| - 1] == Op.Receive(id) && TakenBy(pre, id) < |Accepted(pre, id)| then 1 else 0
  }

  ghost predicate HasRoom(ops: seq<Op>, id: SubId)
    decreases |ops|, 1
  {
    id < |Capacities(ops)| && |Accepted(ops, id)| - TakenBy(ops, id) < Capacities(ops)[id]
  }

  /** How many events meant for `id` were published while it had no room. */
  ghost function Refusals(ops: seq<Op>, id: SubId): nat {
    if ops == [] then 0
    else
      var pre := ops[..|ops| - 1];
      match ops[|ops| - 1]
      case Publish(e) =>
        Refusals(pre, id) + if Close !in pre && id in Audience(pre, e) && !HasRoom(pre, id) then 1 else 0
      case _ => Refusals(pre, id)
  }

  /** Publications before the first `Close`. */
  ghost function Publications(ops: seq<Op>): nat {
    if ops == [] then 0
    else
      var pre := ops[..|ops| - 1];
      Publications(pre) + if ops[|ops| - 1].Publish? && Close !in pre then 1 else 0
  }

  /** Summed over those publications, the size of the audience. */
  ghost function Demand(ops: seq<Op>): nat {
    if ops == [] then 0
    else
      var pre := ops[..|ops| - 1];
      match ops[|ops| - 1]
      case Publish(e) => Demand(pre) + if Close in pre then 0 else |Audience(pre, e)|
      case _ => Demand(pre)
  }

  // ----- Reachable states -----

  /** What every reachable state says about the run that led to it. */
  ghost predicate Reflects(s: State, ops: seq<Op>) {
    && (s.closed <==> Close in ops)
    && |s.channels| == |Scopes(ops)|
    && forall id: SubId | id < |s.channels| :: Sound(s.channels[id], id, ops)
  }

  ghost predicate Sound(c: Channel, id: SubId, ops: seq<Op>) {
    && id < |Scopes(ops)| && c.scope == Scopes(ops)[id] && c.capacity == Capacities(ops)[id]
    && (c.open <==> id in Live(ops))
    && (c.cancelled <==> CancelledIn(ops, id))
    && (!c.open && !c.cancelled ==> Close in ops)
    && (c.cancelled ==> !c.open)
    && |c.buffer| <= c.capacity
  }

  /** `id` is cancelled after it was subscribed. */
  ghost predicate CancelledIn(ops: seq<Op>, id: SubId) {
    ops != [] && (CancelledIn(ops[..|ops| - 1], id) || (ops[|ops| - 1] == Op.Cancel(id) && id < |Scopes(ops)|))
  }

  lemma StepAt(ops: seq<Op>)
    requires ops != [] && After(ops).Some?
    ensures After(ops[..|ops| - 1]).Some?
    ensures Step(After(ops[..|ops| - 1]).value, ops[|ops| - 1]) == After(ops)
    ensures Close in ops <==> Close in ops[..|ops| - 1] || ops[|ops| - 1] == Close
  {
  }

  lemma {:induction false} ReachableReflects(ops: seq<Op>)
    requires After(ops).Some?
    ensures Reflects(After(ops).value, ops)
  {
    if ops == [] {
    } else {
      StepAt(ops);
      ReachableReflects(ops[..|ops| - 1]);
      StepReflects(After(ops[..|ops| - 1]).value, ops);
    }
  }

  lemma {:induction false} NotYetCancelled(ops: seq<Op>, id: SubId)
    requires id >= |Scopes(ops)|
    ensures !CancelledIn(ops, id)
  {
    if ops == [] {
    } else {
      NotYetCancelled(ops[..|ops| - 1], id);
    }
  }

  lemma StepReflects(s: State, ops: seq<Op>)
    requires ops != [] && Reflects(s, ops[..|ops| - 1]) && Step(s, ops[|ops| - 1]).Some?
    ensures Reflects(Step(s, ops[|ops| - 1]).value, ops)
  {
    var pre, op := ops[..|ops| - 1], ops[|ops| - 1];
    var next := Step(s, op).value;
    assert Close in ops <==> Close in pre || op == Close;
    NotYetCancelled(pre, |s.channels|);
    forall id: SubId | id < |next.channels| ensures Sound(next.channels[id], id, ops) {
      if id < |s.channels| {
        OldChannelSound(s, ops, id);
      }
    }
  }

  lemma OldChannelSound(s: State, ops: seq<Op>, id: SubId)
    requires ops != [] && Reflects(s, ops[..|ops| - 1]) && Step(s, ops[|ops| - 1]).Some?
    requires id < |s.channels| <= |Step(s, ops[|ops| - 1]).value.channels|
    ensures Sound(Step(s, ops[|ops| - 1]).value.channels[id], id, ops)
  {
    var pre, op := ops[..|ops| - 1], ops[|ops| - 1];
    assert Close in ops <==> Close in pre || op == Close;
    assert Sound(s.channels[id], id, pre);
    match op {
      case Publish(_) =>
      case Subscribe(_, _) =>
      case Cancel(_) =>
      case Receive(_) =>
      case Close =>
    }
  }

  // ----- Panics -----

  /**
   * The next call panics exactly when it is the first cancel of a subscription that `Close` has shut.
   */
  lemma PanicsExactly(ops: seq<Op>, op: Op)
    requires After(ops).Some?
    ensures After(ops + [op]).None? <==>
            op.Cancel? && op.id < |Scopes(ops)| && !CancelledIn(ops, op.id) && op.id !in Live(ops)
  {
    assert (ops + [op])[..|ops|] == ops;
    ReachableReflects(ops);
    if op.Cancel? && op.id < |Scopes(ops)| {
      assert Sound(After(ops).value.channels[op.id], op.id, ops);
    }
  }

  /** No cancel comes after a `Close`. */
  ghost predicate Orderly(ops: seq<Op>) {
    forall i, j | 0 <= i < j < |ops| && ops[i] == Close :: !ops[j].Cancel?
  }

  /** Without a cancel after `Close`, no call ever panics: nothing is closed twice. */
  lemma {:induction false} OrderlyNeverPanics(ops: seq<Op>)
    requires Orderly(ops)
    ensures After(ops).Some?
  {
    if ops == [] {
    } else {
      var pre, op := ops[..|ops| - 1], ops[|ops| - 1];
      OrderlyNeverPanics(pre);
      assert pre + [op] == ops;
      PanicsExactly(pre, op);
      ReachableReflects(pre);
      if op.Cancel? && op.id < |Scopes(pre)| {
        assert Sound(After(pre).value.channels[op.id], op.id, pre);
        assert Close !in pre;
      }
    }
  }

  /** A cancel after `Close` can panic: subscribe, close, cancel. */
  lemma CancelAfterClosePanics(scope: Option<string>, buffer: int)
    ensures After([Subscribe(scope, buffer), Close, Op.Cancel(0)]).None?
  {
    var two := [Subscribe(scope, buffer), Close];
    assert two[..1] == [Subscribe(scope, buffer)];
    assert [Subscribe(scope, buffer)][..0] == [];
    assert After([]) == Some(INITIAL) && INITIAL.channels + [Fresh(scope, buffer)] == [Fresh(scope, buffer)];
    assert After([Subscribe(scope, buffer)]) == Some(INITIAL.(channels := [Fresh(scope, buffer)]));
    assert two + [Op.Cancel(0)] == [Subscribe(scope, buffer), Close, Op.Cancel(0)];
    assert [Subscribe(scope, buffer), Close, Op.Cancel(0)][..2] == two;
  }

  // ----- What a subscriber gets -----

  /** `a` is `b` with some elements left out. */
  ghost predicate Subsequence(a: seq<Event>, b: seq<Event>) {
    a == [] || (b != [] && (Subsequence(a, b[..|b| - 1])
                            || (a[|a| - 1] == b[|b| - 1] && Subsequence(a[..|a| - 1], b[..|b| - 1]))))
  }

  lemma SubsequenceGrows(a: seq<Event>, b: seq<Event>, x: Event)
    requires Subsequence(a, b)
    ensures Subsequence(a, b + [x]) && Subsequence(a + [x], b + [x])
  {
    assert (b + [x])[..|b|] == b && (a + [x])[..|a|] == a;
  }

  /** The accepted events are, in order, all the events meant for it less those it had no room for. */
  lemma {:induction false} AcceptedOfOffers(ops: seq<Op>, id: SubId)
    ensures Subsequence(Accepted(ops, id), Offers(ops, id))
    ensures |Accepted(ops, id)| + Refusals(ops, id) == |Offers(ops, id)|
    ensures Refusals(ops, id) == 0 ==> Accepted(ops, id) == Offers(ops, id)
  {
    if ops == [] {
    } else {
      var pre, op := ops[..|ops| - 1], ops[|ops| - 1];
      AcceptedOfOffers(pre, id);
      if op.Publish? {
        SubsequenceGrows(Accepted(pre, id), Offers(pre, id), op.event);
      }
    }
  }

  lemma {:induction false} NothingAcceptedYet(ops: seq<Op>, id: SubId)
    requires id >= |Scopes(ops)|
    ensures Accepted(ops, id) == [] && TakenBy(ops, id) == 0
  {
    if ops == [] {
    } else {
      NothingAcceptedYet(ops[..|ops| - 1], id);
    }
  }

  /** What a subscriber has had: the events taken, then those in the buffer. */
  ghost function Got(c: Channel): seq<Event> {
    c.taken + c.buffer
  }

  /** The channel holds what was accepted for its subscription, the taken part first. */
  ghost predicate Serves(c: Channel, ops: seq<Op>, id: SubId) {
    Got(c) == Accepted(ops, id) && |c.taken| == TakenBy(ops, id)
  }

  /**
   * In every run and for every subscriber, the events taken followed by those in the buffer are exactly
   * the events accepted for it, in order, and as many are taken as were received; all the events meant for
   * it are accepted if it always had room.
   */
  lemma {:induction false} SubscriberGets(ops: seq<Op>, id: SubId)
    requires After(ops).Some? && id < |After(ops).value.channels|
    ensures TakenBy(ops, id) <= |Accepted(ops, id)|
    ensures After(ops).value.channels[id].taken == Accepted(ops, id)[..TakenBy(ops, id)]
    ensures After(ops).value.channels[id].buffer == Accepted(ops, id)[TakenBy(ops, id)..]
    ensures Got(After(ops).value.channels[id]) == Accepted(ops, id)
    ensures Subsequence(Accepted(ops, id), Offers(ops, id))
    ensures Refusals(ops, id) == 0 ==> Got(After(ops).value.channels[id]) == Offers(ops, id)
  {
    hide After, Subsequence, Scopes, Live, Audience, Accepted, TakenBy, Offers, Refusals;
    AcceptedOfOffers(ops, id);
    EveryChannelServes(ops, id);
    assert Serves(After(ops).value.channels[id], ops, id);
  }

  /** An event meant for a subscription is accepted exactly when fewer events are untaken than it has room for. */
  lemma {:induction false} AcceptedExactly(ops: seq<Op>, e: Event, id: SubId)
    requires After(ops).Some? && Close !in ops && id in Audience(ops, e)
    ensures After(ops + [Op.Publish(e)]).Some? && id < |After(ops + [Op.Publish(e)]).value.channels|
    ensures Got(After(ops + [Op.Publish(e)]).value.channels[id])
            == if |Accepted(ops, id)| - TakenBy(ops, id) < Capacities(ops)[id] then Accepted(ops, id) + [e]
               else Accepted(ops, id)
  {
    var more := ops + [Op.Publish(e)];
    assert more[..|more| - 1] == ops;
    ReachableReflects(ops);
    assert Reflects(After(ops).value, ops);
    SubscriberGets(more, id);
  }

  lemma {:induction false} EveryChannelServes(ops: seq<Op>, id: SubId)
    requires After(ops).Some? && id < |After(ops).value.channels|
    ensures Serves(After(ops).value.channels[id], ops, id)
  {
    hide Step, Subsequence, Scopes, Live, Audience, Accepted, Offers, Refusals, Serves;
    StepAt(ops);
    var pre, op := ops[..|ops| - 1], ops[|ops| - 1];
    var s := After(pre).value;
    ReachableReflects(pre);
    if id >= |s.channels| {
      NewlyServed(s, ops, id);
    } else {
      EveryChannelServes(pre, id);
      if op.Publish? {
        PublishServes(s, ops, op.event, id);
      } else {
        OtherServes(s, ops, id);
      }
    }
  }

  lemma {:induction false} NewlyServed(s: State, ops: seq<Op>, id: SubId)
    requires ops != [] && After(ops[..|ops| - 1]) == Some(s) && Reflects(s, ops[..|ops| - 1])
    requires Step(s, ops[|ops| - 1]).Some? && |s.channels| <= id < |Step(s, ops[|ops| - 1]).value.channels|
    ensures Serves(Step(s, ops[|ops| - 1]).value.channels[id], ops, id)
  {
    NothingAcceptedYet(ops[..|ops| - 1], id);
  }

  lemma {:induction false} OtherServes(s: State, ops: seq<Op>, id: SubId)
    requires ops != [] && !ops[|ops| - 1].Publish? && Step(s, ops[|ops| - 1]).Some?
    requires id < |s.channels| && Serves(s.channels[id], ops[..|ops| - 1], id)
    ensures id < |Step(s, ops[|ops| - 1]).value.channels|
    ensures Serves(Step(s, ops[|ops| - 1]).value.channels[id], ops, id)
  {
    TakenKeeps(s.channels[id]);
  }

  lemma TakenKeeps(c: Channel)
    ensures Got(Taken(c)) == Got(c)
  {
  }

  lemma {:induction false} PublishServes(s: State, ops: seq<Op>, e: Event, id: SubId)
    requires ops != [] && ops[|ops| - 1] == Op.Publish(e) && After(ops[..|ops| - 1]) == Some(s)
    requires Reflects(s, ops[..|ops| - 1]) && id < |s.channels|
    requires Serves(s.channels[id], ops[..|ops| - 1], id)
    ensures Serves(Step(s, Op.Publish(e)).value.channels[id], ops, id)
  {
    var pre, c := ops[..|ops| - 1], s.channels[id];
    assert Sound(c, id, pre);
    assert id in Audience(pre, e) <==> Wants(c, e);
    if Wants(c, e) && !Full(c) {
      assert Got(Sent(c, e)) == Got(c) + [e];
    }
  }

  // ----- Conservation -----

  ghost function Delivered(channels: seq<Channel>): nat {
    if channels == [] then 0 else Delivered(channels[..|channels| - 1]) + |Got(channels[|channels| - 1])|
  }

  lemma {:induction false} DeliveredSame(a: seq<Channel>, b: seq<Channel>)
    requires |a| == |b| && forall id: SubId | id < |a| :: |Got(a[id])| == |Got(b[id])|
    ensures Delivered(a) == Delivered(b)
  {
    if a == [] {
    } else {
      DeliveredSame(a[..|a| - 1], b[..|b| - 1]);
    }
  }

  ghost function Accepting(channels: seq<Channel>, e: Event): set<SubId> {
    set id: SubId | id < |channels| && Wants(channels[id], e) && !Full(channels[id])
  }

  lemma {:induction false} DeliveredOffered(channels: seq<Channel>, e: Event)
    ensures Delivered(AllOffered(channels, e)) == Delivered(channels) + |Accepting(channels, e)|
  {
    if channels == [] {
    } else {
      var n := |channels| - 1;
      var pre, c := channels[..n], channels[n];
      DeliveredOffered(pre, e);
      assert AllOffered(channels, e)[..n] == AllOffered(pre, e);
      assert Accepting(channels, e) == if Wants(c, e) && !Full(c) then Accepting(pre, e) + {n} else Accepting(pre, e);
      assert |Got(Offered(c, e))| == |Got(c)| + if Wants(c, e) && !Full(c) then 1 else 0;
    }
  }

  /**
   * In every run, `published` counts the publications before `Close`, and what was delivered plus
   * what was dropped is the sum of the publications' audiences.
   */
  lemma {:induction false} Conservation(ops: seq<Op>)
    requires After(ops).Some?
    ensures After(ops).value.published == Publications(ops)
    ensures Delivered(After(ops).value.channels) + After(ops).value.dropped == Demand(ops)
  {
    hide Reflects, Step, Audience;
    if ops == [] {
    } else {
      StepAt(ops);
      var pre, op := ops[..|ops| - 1], ops[|ops| - 1];
      var s, next := After(pre).value, After(ops).value;
      Conservation(pre);
      ReachableReflects(pre);
      StepConserves(s, pre, op, next);
    }
  }

  lemma StepConserves(s: State, pre: seq<Op>, op: Op, next: State)
    requires Reflects(s, pre) && Step(s, op) == Some(next)
    ensures Delivered(next.channels) + next.dropped == Delivered(s.channels) + s.dropped
      + if op.Publish? && Close !in pre then |Audience(pre, op.event)| else 0
    ensures next.published == s.published + if op.Publish? && Close !in pre then 1 else 0
  {
    match op {
      case Publish(e) =>
        if !s.closed {
          PublishConserves(s, pre, e);
        }
      case Subscribe(_, _) => assert next.channels[..|s.channels|] == s.channels;
      case Receive(id) =>
        if id < |s.channels| {
          TakenKeeps(s.channels[id]);
        }
        DeliveredSame(s.channels, next.channels);
      case Cancel(_) => DeliveredSame(s.channels, next.channels);
      case Close => DeliveredSame(s.channels, next.channels);
    }
  }

  lemma PublishConserves(s: State, pre: seq<Op>, e: Event)
    requires Reflects(s, pre) && !s.closed
    ensures Delivered(AllOffered(s.channels, e)) + |Refusing(s.channels, e)| ==
        Delivered(s.channels) + |Audience(pre, e)|
  {
    DeliveredOffered(s.channels, e);
    var yes, no := Accepting(s.channels, e), Refusing(s.channels, e);
    forall id: SubId ensures id in Audience(pre, e) <==> id in yes + no {
      if id < |s.channels| {
        assert Sound(s.channels[id], id, pre);
      }
    }
    assert Audience(pre, e) == yes + no;
    assert yes !! no;
  }

  // ----- After closing -----

  /** Once closed, nothing more is delivered or counted, and only the consumers still move. */
  lemma {:induction false} ClosedIsFinal(ops: seq<Op>, more: seq<Op>, id: SubId)
    requires Close in ops && id < |Scopes(ops)| && After(ops + more).Some?
    ensures After(ops).Some? && Reflects(After(ops).value, ops) && Reflects(After(ops + more).value, ops + more)
    ensures id < |After(ops).value.channels| <= |After(ops + more).value.channels|
    ensures Got(After(ops + more).value.channels[id]) == Got(After(ops).value.channels[id])
    ensures After(ops + more).value.published == After(ops).value.published
    ensures After(ops + more).value.dropped == After(ops).value.dropped
  {
    hide Sound, Live, Capacities;
    if more == [] {
      assert ops + more == ops;
      ReachableReflects(ops);
    } else {
      var last := |more| - 1;
      assert (ops + more)[..|ops + more| - 1] == ops + more[..last];
      StepAt(ops + more);
      ClosedIsFinal(ops, more[..last], id);
      ReachableReflects(ops + more);
      var s := After(ops + more[..last]).value;
      TakenKeeps(s.channels[id]);
    }
  }

  /** A subscriber that joins after `Close` never gets anything. */
  lemma {:induction false} LateSubscriberGetsNothing(ops: seq<Op>, more: seq<Op>, id: SubId)
    requires Close in ops && After(ops + more).Some?
    requires |Scopes(ops)| <= id < |After(ops + more).value.channels|
    ensures Got(After(ops + more).value.channels[id]) == []
  {
    SubscriberGets(ops + more, id);
    NothingAcceptedLate(ops, more, id);
  }

  lemma {:induction false} NothingAcceptedLate(ops: seq<Op>, more: seq<Op>, id: SubId)
    requires Close in ops && |Scopes(ops)| <= id
    ensures Accepted(ops + more, id) == []
  {
    if more == [] {
      assert ops + more == ops;
      NothingAcceptedYet(ops, id);
    } else {
      assert (ops + more)[..|ops + more| - 1] == ops + more[..|more| - 1];
      NothingAcceptedLate(ops, more[..|more| - 1], id);
    }
  }
}
