/** Interleaved runs of the broker: what each subscriber gets, in which order, and what is counted. */
module BrokerInterleavings {
  import opened Ordering
  import opened Broker
  import opened BrokerRaces
  import BrokerRuns

  // ----- What a subscriber gets -----

  /** The publications whose event `id` got, in the order they sent it. */
  ghost function Senders(run: seq<Action>, id: SubId): seq<nat> {
    if run == [] then []
    else
      var pre := run[..|run| - 1];
      match run[|run| - 1]
      case Send(p, i) => if i == id && HadRoom(After(pre), id) then Senders(pre, id) + [p] else Senders(pre, id)
      case _ => Senders(pre, id)
  }

  ghost predicate HadRoom(o: Outcome, id: SubId) {
    o.Now? && id < |o.s.channels| && !Full(o.s.channels[id])
  }

  /** `got` are the events of these different publications, which are just those that delivered to `id`. */
  ghost predicate Accounts(got: seq<Event>, senders: seq<nat>, publications: seq<Publication>, id: SubId) {
    && Distinct(senders) && |got| == |senders|
    && (forall k | 0 <= k < |senders| :: senders[k] < |publications| && got[k] == publications[senders[k]].event)
    && (forall p | 0 <= p < |publications| :: p in senders <==> id in publications[p].delivered)
  }

  /**
   * However the calls interleave, a subscriber gets the event of each publication that delivered to it
   * once, in the order of the sends, and nothing else.
   */
  lemma {:induction false} SubscriberGets(run: seq<Action>, id: SubId)
    requires After(run).Now?
    ensures id < |After(run).s.channels| ==>
              Accounts(BrokerRuns.Got(After(run).s.channels[id]), Senders(run, id), After(run).s.publications, id)
    ensures id >= |After(run).s.channels| ==> Senders(run, id) == []
  {
    if run == [] {
    } else {
      AfterLast(run);
      var pre, a := run[..|run| - 1], run[|run| - 1];
      SubscriberGets(pre, id);
      EveryRunKeeps(pre);
      var s, t := After(pre).s, After(run).s;
      if id < |s.channels| {
        if a.Send? && a.id == id {
          SendAccounts(s, a.p, id, Senders(pre, id));
        } else {
          OtherAccounts(s, a, id, Senders(pre, id));
        }
      } else if id < |t.channels| {
        NewAccounts(s, a, id);
      }
    }
  }

  lemma SendAccounts(s: System, p: nat, id: SubId, senders: seq<nat>)
    requires Kept(s) && Enabled(s, Send(p, id)) && s.channels[id].open
    requires Accounts(BrokerRuns.Got(s.channels[id]), senders, s.publications, id)
    ensures Accounts(BrokerRuns.Got(Served(s, p, id).channels[id]),
                if Full(s.channels[id]) then senders else senders + [p], Served(s, p, id).publications, id)
  {
    var c, t := s.channels[id], Served(s, p, id);
    assert Parted(s.channels, s.publications[p]);
    if !Full(c) {
      assert BrokerRuns.Got(Sent(c, s.publications[p].event)) == BrokerRuns.Got(c) + [s.publications[p].event];
    }
  }

  lemma OtherAccounts(s: System, a: Action, id: SubId, senders: seq<nat>)
    requires Kept(s) && Enabled(s, a) && Act(s, a).Some? && !(a.Send? && a.id == id) && id < |s.channels|
    requires Accounts(BrokerRuns.Got(s.channels[id]), senders, s.publications, id)
    ensures id < |Act(s, a).value.channels|
    ensures Accounts(BrokerRuns.Got(Act(s, a).value.channels[id]), senders, Act(s, a).value.publications, id)
  {
    var t := Act(s, a).value;
    BrokerRuns.TakenKeeps(s.channels[id]);
    assert BrokerRuns.Got(t.channels[id]) == BrokerRuns.Got(s.channels[id]);
    forall p | 0 <= p < |t.publications|
      ensures p < |s.publications| ==> t.publications[p].event == s.publications[p].event
      ensures id in t.publications[p].delivered <==> p < |s.publications| && id in s.publications[p].delivered
    {
      if p < |s.publications| {
        assert Parted(s.channels, s.publications[p]);
      }
    }
  }

  lemma NewAccounts(s: System, a: Action, id: SubId)
    requires Kept(s) && Enabled(s, a) && Act(s, a).Some? && |s.channels| <= id < |Act(s, a).value.channels|
    ensures Accounts(BrokerRuns.Got(Act(s, a).value.channels[id]), [], Act(s, a).value.publications, id)
  {
    var t := Act(s, a).value;
    forall p | 0 <= p < |t.publications| ensures id !in t.publications[p].delivered {
      assert Parted(s.channels, s.publications[p]);
    }
  }

  /** A subscriber gets the event of a finished publication before that of any publication begun later. */
  lemma InOrder(run: seq<Action>, more: seq<Action>, id: SubId, j: nat, k: nat)
    requires After(run).Now? && After(run + more).Now?
    requires j < |Senders(run + more, id)| && k < |Senders(run + more, id)|
    requires Finished(After(run).s, Senders(run + more, id)[j])
    requires Senders(run + more, id)[k] >= |After(run).s.publications|
    ensures j < k
  {
    SendersGrow(run, more, id, Senders(run + more, id)[j]);
    SubscriberGets(run, id);
  }

  lemma {:induction false} SendersGrow(run: seq<Action>, more: seq<Action>, id: SubId, p: nat)
    requires After(run).Now? && After(run + more).Now? && Finished(After(run).s, p)
    ensures Finished(After(run + more).s, p)
    ensures Senders(run, id) <= Senders(run + more, id)
    ensures p !in Senders(run + more, id)[|Senders(run, id)|..]
  {
    hide After, Enabled, Act, Finished, HadRoom;
    if more == [] {
      assert run + more == run;
    } else {
      var n := |more| - 1;
      assert (run + more)[..|run + more| - 1] == run + more[..n];
      AfterLast(run + more);
      SendersGrow(run, more[..n], id, p);
      FinishedKept(After(run + more[..n]).s, more[n], p);
    }
  }

  lemma FinishedKept(s: System, a: Action, p: nat)
    requires Finished(s, p) && Enabled(s, a) && Act(s, a).Some?
    ensures Finished(Act(s, a).value, p) && !(a.Send? && a.p == p)
  {
  }

  // ----- After closing -----

  /**
   * Once `Close` has begun no publication is admitted, so whatever a subscriber still gets, even one
   * that joins later, comes from the publications then under way.
   */
  lemma {:induction false} ClosedAdmitsNone(run: seq<Action>, more: seq<Action>, id: SubId)
    requires After(run).Now? && After(run).s.closer != Idle && After(run + more).Now?
    ensures |After(run + more).s.publications| == |After(run).s.publications| && After(run + more).s.closer != Idle
    ensures id < |After(run + more).s.channels| ==>
              forall p | p in Senders(run + more, id) :: p < |After(run).s.publications|
  {
    hide After, Senders;
    NoneAdmitted(run, more);
    SubscriberGets(run + more, id);
  }

  lemma {:induction false} NoneAdmitted(run: seq<Action>, more: seq<Action>)
    requires After(run).Now? && After(run).s.closer != Idle && After(run + more).Now?
    ensures |After(run + more).s.publications| == |After(run).s.publications| && After(run + more).s.closer != Idle
  {
    hide After, Enabled;
    if more == [] {
      assert run + more == run;
    } else {
      var n := |more| - 1;
      assert (run + more)[..|run + more| - 1] == run + more[..n];
      AfterLast(run + more);
      NoneAdmitted(run, more[..n]);
    }
  }

  /** Such a late delivery can happen. */
  lemma LateDelivery(e: Event)
    ensures var run := [Enter(e)] + [Action.Close] + [Gather] + [Action.Subscribe(None, 1)] + [Count(0)]
                       + [Snapshot(0)] + [Send(0, 0)];
            After(run).Now? && |After(run).s.channels| == 1 && BrokerRuns.Got(After(run).s.channels[0]) == [e]
  {
    var one := [Enter(e)];
    var two := one + [Action.Close];
    var three := two + [Gather];
    var four := three + [Action.Subscribe(None, 1)];
    var five := four + [Count(0)];
    var six := five + [Snapshot(0)];
    assert [] + one == one;
    AfterOne([], Enter(e));
    AfterOne(one, Action.Close);
    AfterOne(two, Gather);
    AfterOne(three, Action.Subscribe(None, 1));
    AfterOne(four, Count(0));
    AfterOne(five, Snapshot(0));
    AfterOne(six, Send(0, 0));
  }

  // ----- What is counted -----

  /** The publications that are past their count. */
  ghost function Counted(s: System): set<nat> {
    set p: nat | p < |s.publications| && s.publications[p].phase != Checked
  }

  /** The sends, by publication and channel, that found no room. */
  ghost function Refused(s: System): set<(nat, SubId)> {
    set p: nat, id | p < |s.publications| && id in s.publications[p].refused :: (p, id)
  }

  /** In every run `published` counts the publications past their count, and `dropped` the refused sends. */
  lemma {:induction false} CountersExact(run: seq<Action>)
    requires After(run).Now?
    ensures After(run).s.published == |Counted(After(run).s)| && After(run).s.dropped == |Refused(After(run).s)|
  {
    if run == [] {
    } else {
      AfterLast(run);
      var pre, a := run[..|run| - 1], run[|run| - 1];
      CountersExact(pre);
      EveryRunKeeps(pre);
      CountedNext(After(pre).s, a);
      RefusedNext(After(pre).s, a);
    }
  }

  lemma CountedNext(s: System, a: Action)
    requires Enabled(s, a) && Act(s, a).Some?
    ensures Act(s, a).value.published - s.published == |Counted(Act(s, a).value)| - |Counted(s)|
  {
    assert Counted(Act(s, a).value) == if a.Count? then Counted(s) + {a.p} else Counted(s);
  }

  lemma RefusedNext(s: System, a: Action)
    requires Kept(s) && Enabled(s, a) && Act(s, a).Some?
    ensures Act(s, a).value.dropped - s.dropped == |Refused(Act(s, a).value)| - |Refused(s)|
  {
    hide Kept, Refused;
    var t := Act(s, a).value;
    match a {
      case Send(p, id) => RefusedServed(s, p, id);
      case Snapshot(p) =>
        NothingRefusedYet(s, p);
        RefusedSame(s, t);
      case _ => RefusedSame(s, t);
    }
  }

  lemma RefusedSame(s: System, t: System)
    requires |s.publications| <= |t.publications|
    requires forall p | 0 <= p < |t.publications| ::
               t.publications[p].refused == if p < |s.publications| then s.publications[p].refused else {}
    ensures Refused(s) == Refused(t)
  {
  }

  lemma NothingRefusedYet(s: System, p: nat)
    requires Kept(s) && p < |s.publications| && s.publications[p].phase != Sending
    ensures s.publications[p].refused == {}
  {
    assert Parted(s.channels, s.publications[p]);
  }

  lemma RefusedServed(s: System, p: nat, id: SubId)
    requires Kept(s) && Enabled(s, Send(p, id))
    ensures Served(s, p, id).dropped - s.dropped == |Refused(Served(s, p, id))| - |Refused(s)|
  {
    assert Parted(s.channels, s.publications[p]);
    if Full(s.channels[id]) {
      assert Refused(Served(s, p, id)) == Refused(s) + {(p, id)};
    } else {
      RefusedSame(s, Served(s, p, id));
    }
  }
}
