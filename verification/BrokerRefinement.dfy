/** Calls that nothing else comes between: each is one step of the machine whose calls are atomic. */
module BrokerRefinement {
  import opened Ordering
  import opened Broker
  import opened BrokerRaces

  ghost function Abstract(s: System): State {
    State(s.channels, s.published, s.dropped, s.closer != Idle)
  }

  /** The sends of publication `p`, in the order `ids`. */
  ghost function Sends(p: nat, ids: seq<SubId>): seq<Action> {
    seq(|ids|, k requires 0 <= k < |ids| => Send(p, ids[k]))
  }

  /** After some of its sends: these are served, as `Fanned` says, and the others pending. */
  ghost predicate Halfway(s: System, t: System, p: nat, ids: seq<SubId>) {
    && p < |s.publications| == |t.publications|
    && t == s.(channels := t.channels, publications := t.publications, dropped := t.dropped)
    && FannedTo(s.channels, t.channels, ids, s.publications[p].event)
    && t.dropped == s.dropped + |FullAmong(s.channels, ids)|
    && t.publications[p].event == s.publications[p].event && t.publications[p].phase == s.publications[p].phase
    && t.publications[p].pending == s.publications[p].pending - Elements(ids)
  }

  lemma {:induction false} SendsRun(run: seq<Action>, p: nat, ids: seq<SubId>)
    requires After(run).Now? && p < |After(run).s.publications| && Distinct(ids)
    requires forall id | id in ids :: Serving(After(run).s, p, id)
    ensures After(run + Sends(p, ids)).Now?
    ensures Halfway(After(run).s, After(run + Sends(p, ids)).s, p, ids)
  {
    hide After, Enabled, Act, Halfway, Serving, Served;
    var s := After(run).s;
    if ids == [] {
      assert run + Sends(p, ids) == run;
      HalfwayNone(s, p);
    } else {
      var n := |ids| - 1;
      var pre, id := ids[..n], ids[n];
      SendsRun(run, p, pre);
      assert run + Sends(p, ids) == run + Sends(p, pre) + [Send(p, id)];
      assert Serving(s, p, id);
      HalfwayStep(s, After(run + Sends(p, pre)).s, p, ids);
      AfterOne(run + Sends(p, pre), Send(p, id));
    }
  }

  lemma HalfwayNone(s: System, p: nat)
    requires p < |s.publications|
    ensures Halfway(s, s, p, [])
  {
    assert FullAmong(s.channels, []) == {};
  }

  lemma HalfwayStep(s: System, t: System, p: nat, ids: seq<SubId>)
    requires ids != [] && Distinct(ids) && Halfway(s, t, p, ids[..|ids| - 1]) && Serving(s, p, ids[|ids| - 1])
    ensures Enabled(t, Send(p, ids[|ids| - 1])) && Act(t, Send(p, ids[|ids| - 1])) == Some(Served(t, p, ids[|ids| - 1]))
    ensures Halfway(s, Served(t, p, ids[|ids| - 1]), p, ids)
  {
    var n := |ids| - 1;
    assert ids[..n + 1] == ids == ids[..n] + [ids[n]];
    ElementsAppend(ids[..n], [ids[n]]);
    FanStep(s.channels, t.channels, ids, n, s.publications[p].event);
    if Full(t.channels[ids[n]]) {
      assert t.channels[ids[n] := t.channels[ids[n]]] == t.channels;
    }
  }

  /** What is registered is what is open: no cancel and no `Close` is under way. */
  ghost predicate Settled(s: System) {
    s.closer == Idle && forall id: SubId | id < |s.channels| :: id in s.linked <==> s.channels[id].open
  }

  /**
   * A publication that nothing else comes between, serving its audience in any order, is one step of the
   * machine whose calls are atomic.
   */
  lemma PublishRefines(run: seq<Action>, e: Event, ids: seq<SubId>)
    requires After(run).Now? && Settled(After(run).s) && Distinct(ids)
    requires Elements(ids) == Registered(After(run).s, e)
    ensures var p := |After(run).s.publications|;
            var whole := run + [Enter(e)] + [Count(p)] + [Snapshot(p)] + Sends(p, ids);
            && After(whole).Now? && Finished(After(whole).s, p) && Settled(After(whole).s)
            && Step(Abstract(After(run).s), Op.Publish(e)) == Some(Abstract(After(whole).s))
  {
    hide After, Settled, Serving, Halfway, Finished, Step, Abstract, Kept, Registered, Elements;
    var s := After(run).s;
    var p := |s.publications|;
    var three := run + [Enter(e)] + [Count(p)] + [Snapshot(p)];
    EveryRunKeeps(run);
    SettledIdle(s);
    AnnouncedRun(run, e);
    AllServing(s, e, ids);
    SendsRun(three, p, ids);
    PublishedOnce(s, After(three + Sends(p, ids)).s, e, ids);
  }

  lemma SettledIdle(s: System)
    requires Settled(s)
    ensures s.closer == Idle
  {
  }

  /** The state with one more publication that has taken its snapshot. */
  ghost function Announced(s: System, e: Event): System {
    s.(published := s.published + 1,
      publications := s.publications + [Publication(e, Sending, Registered(s, e), Registered(s, e), {}, {})])
  }

  lemma AllServing(s: System, e: Event, ids: seq<SubId>)
    requires Kept(s) && Elements(ids) == Registered(s, e)
    ensures forall id | id in ids :: Serving(Announced(s, e), |s.publications|, id)
  {
    assert forall id | id in ids :: id in Elements(ids);
  }

  lemma PublishedOnce(s: System, t: System, e: Event, ids: seq<SubId>)
    requires Settled(s) && Kept(s) && Elements(ids) == Registered(s, e)
    requires Halfway(Announced(s, e), t, |s.publications|, ids)
    ensures Finished(t, |s.publications|) && Settled(t)
    ensures Step(Abstract(s), Op.Publish(e)) == Some(Abstract(t))
  {
    Offering(s, t.channels, e, ids);
  }

  lemma AnnouncedRun(run: seq<Action>, e: Event)
    requires After(run).Now? && After(run).s.closer == Idle
    ensures var p := |After(run).s.publications|;
            After(run + [Enter(e)] + [Count(p)] + [Snapshot(p)]) == Now(Announced(After(run).s, e))
  {
    var s := After(run).s;
    var p := |s.publications|;
    var one := run + [Enter(e)];
    var two := one + [Count(p)];
    AfterOne(run, Enter(e));
    AfterOne(one, Count(p));
    AfterOne(two, Snapshot(p));
    assert Registered(After(two).s, e) == Registered(s, e);
  }

  lemma Offering(s: System, after: seq<Channel>, e: Event, ids: seq<SubId>)
    requires Settled(s) && Kept(s) && Elements(ids) == Registered(s, e) && FannedTo(s.channels, after, ids, e)
    ensures after == AllOffered(s.channels, e) && FullAmong(s.channels, ids) == Refusing(s.channels, e)
  {
    forall id: SubId | id < |s.channels| ensures id in ids <==> Wants(s.channels[id], e) {
      assert id in ids <==> id in Elements(ids);
    }
  }

  /** The step a call begins with. */
  function FirstStep(op: Op): Action {
    match op
    case Publish(e) => Enter(e)
    case Subscribe(scope, buffer) => Action.Subscribe(scope, buffer)
    case Cancel(id) => Action.Cancel(id)
    case Receive(id) => Action.Receive(id)
    case Close => Action.Close
  }

  /** A publication after `Close`, a subscription and a receive are one step in both machines. */
  lemma SingleStepsRefine(s: System, op: Op)
    requires (op.Publish? && s.closer != Idle) || op.Subscribe? || (op.Receive? && op.id < |s.channels|)
    ensures var a := FirstStep(op);
            && Enabled(s, a) && Act(s, a).Some?
            && Step(Abstract(s), op) == Some(Abstract(Act(s, a).value))
            && (Settled(s) ==> Settled(Act(s, a).value))
  {
  }

  /** A cancel that nothing else comes between is one step too, panicking alike. */
  lemma CancelRefines(run: seq<Action>, id: SubId)
    requires After(run).Now? && id < |After(run).s.channels|
    ensures var s, op := After(run).s, Op.Cancel(id);
            var whole := run + [Action.Cancel(id)] + (if s.channels[id].cancelled then [] else [Unlink(id), Shut(id)]);
            match Step(Abstract(s), op)
            case None => After(whole) == Panicked
            case Some(t) => After(whole).Now? && Abstract(After(whole).s) == t
                            && (Settled(s) ==> Settled(After(whole).s))
  {
    var s := After(run).s;
    var one := run + [Action.Cancel(id)];
    EveryRunKeeps(run);
    AfterOne(run, Action.Cancel(id));
    if s.channels[id].cancelled {
      assert one + [] == one;
    } else {
      AfterOne(one, Unlink(id));
      AfterOne(one + [Unlink(id)], Shut(id));
      assert one + [Unlink(id), Shut(id)] == one + [Unlink(id)] + [Shut(id)];
    }
  }

  /** `ids` have been closed since `s`, in the state `t`. */
  ghost predicate HalfShut(s: System, t: System, ids: seq<SubId>) {
    && s.closer.Shutting? && t == s.(channels := t.channels, closer := Shutting(s.closer.pending - Elements(ids)))
    && ShutAmong(s.channels, t.channels, ids)
  }

  lemma {:induction false} ShutsRun(run: seq<Action>, ids: seq<SubId>)
    requires After(run).Now? && After(run).s.closer.Shutting? && Distinct(ids)
    requires forall id | id in ids :: id in After(run).s.closer.pending && id < |After(run).s.channels|
    ensures After(run + Shuts(ids)).Now? && HalfShut(After(run).s, After(run + Shuts(ids)).s, ids)
  {
    hide After, Enabled, Act;
    if ids == [] {
      assert run + Shuts(ids) == run;
    } else {
      var n := |ids| - 1;
      ShutsRun(run, ids[..n]);
      assert run + Shuts(ids) == run + Shuts(ids[..n]) + [ShutGathered(ids[n])];
      HalfShutStep(After(run).s, After(run + Shuts(ids[..n])).s, ids);
      AfterOne(run + Shuts(ids[..n]), ShutGathered(ids[n]));
    }
  }

  lemma HalfShutStep(s: System, t: System, ids: seq<SubId>)
    requires ids != [] && Distinct(ids) && HalfShut(s, t, ids[..|ids| - 1])
    requires ids[|ids| - 1] in s.closer.pending && ids[|ids| - 1] < |s.channels|
    ensures Enabled(t, ShutGathered(ids[|ids| - 1])) && Act(t, ShutGathered(ids[|ids| - 1])).Some?
    ensures HalfShut(s, Act(t, ShutGathered(ids[|ids| - 1])).value, ids)
  {
    var n := |ids| - 1;
    assert ids[..n + 1] == ids == ids[..n] + [ids[n]];
    ElementsAppend(ids[..n], [ids[n]]);
    assert Elements([ids[n]]) == {ids[n]} && ids[n] !in Elements(ids[..n]);
    assert s.closer.pending - Elements(ids) == s.closer.pending - Elements(ids[..n]) - {ids[n]};
    ShutStep(s.channels, t.channels, ids, n);
  }

  ghost function Shuts(ids: seq<SubId>): seq<Action> {
    seq(|ids|, k requires 0 <= k < |ids| => ShutGathered(ids[k]))
  }

  /** And so is a `Close`, whatever the order in which it closes the channels. */
  lemma CloseRefines(run: seq<Action>, ids: seq<SubId>)
    requires After(run).Now? && Settled(After(run).s) && Distinct(ids) && Elements(ids) == After(run).s.linked
    ensures var whole := run + [Action.Close] + [Gather] + Shuts(ids);
            && After(whole).Now? && After(whole).s.closer == Shutting({})
            && Step(Abstract(After(run).s), Op.Close) == Some(Abstract(After(whole).s))
  {
    var s := After(run).s;
    var two := run + [Action.Close] + [Gather];
    EveryRunKeeps(run);
    AfterOne(run, Action.Close);
    AfterOne(run + [Action.Close], Gather);
    assert forall id :: id in ids <==> id in Elements(ids);
    ShutsRun(two, ids);
    var t := After(two + Shuts(ids)).s;
    ShutAll(s.channels, t.channels, ids);
    assert s.linked - Elements(ids) == {};
  }
}
