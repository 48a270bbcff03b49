/**
 * The broker with its calls interleaved: every atomic operation, locked section and channel operation is
 * a step of its own, so a channel may be closed between a publication's snapshot and its sends.
 */
module BrokerRaces {
  import opened Ordering
  import opened Broker
  import BrokerRuns

  datatype Phase = Checked | Counted | Sending

  /** A call of `Publish` that found the broker open: what it has to serve, and how it has fared so far. */
  datatype Publication = Publication(
    event: Event, phase: Phase, audience: set<SubId>, pending: set<SubId>, delivered: set<SubId>, refused: set<SubId>)

  /** How far `Close` has come; `pending` are the gathered channels it has not closed yet. */
  datatype Closer = Idle | Flagged | Shutting(pending: set<SubId>)

  /**
   * `linked` are the registered channels, `unlinking` those whose cancel function has been entered, and
   * `shutting` those it has unregistered but not closed.
   */
  datatype System = System(
    channels: seq<Channel>, linked: set<SubId>, publications: seq<Publication>, unlinking: set<SubId>,
    shutting: set<SubId>, closer: Closer, published: nat, dropped: nat)

  datatype Action =
    | Enter(event: Event)
    | Count(p: nat)
    | Snapshot(p: nat)
    | Send(p: nat, id: SubId)
    | Subscribe(scope: Option<string>, buffer: int)
    | Cancel(id: SubId)
    | Unlink(id: SubId)
    | Shut(id: SubId)
    | Close
    | Gather
    | ShutGathered(id: SubId)
    | Receive(id: SubId)

  const START := System([], {}, [], {}, {}, Idle, 0, 0)

  predicate Enabled(s: System, a: Action) {
    match a
    case Count(p) => p < |s.publications| && s.publications[p].phase == Checked
    case Snapshot(p) => p < |s.publications| && s.publications[p].phase == Counted
    case Send(p, id) => p < |s.publications| && id in s.publications[p].pending && id < |s.channels|
    case Cancel(id) => id < |s.channels|
    case Unlink(id) => id in s.unlinking
    case Shut(id) => id in s.shutting && id < |s.channels|
    case Gather => s.closer.Flagged?
    case ShutGathered(id) => s.closer.Shutting? && id in s.closer.pending && id < |s.channels|
    case Receive(id) => id < |s.channels|
    case _ => true
  }

  /** The registered channels an event is meant for. */
  function Registered(s: System, e: Event): set<SubId> {
    set id | id in s.linked && id < |s.channels| && Matches(s.channels[id].scope, e)
  }

  function Closed(c: Channel): Channel {
    c.(open := false)
  }

  /** One step; none is a panic. `Close` recovers from closing a closed channel, a cancel does not. */
  function Act(s: System, a: Action): Option<System>
    requires Enabled(s, a)
  {
    match a
    case Enter(e) =>
      Some(if s.closer != Idle then s
           else s.(publications := s.publications + [Publication(e, Checked, {}, {}, {}, {})]))
    case Count(p) =>
      Some(s.(published := s.published + 1,
           publications := s.publications[p := s.publications[p].(phase := Counted)]))
    case Snapshot(p) =>
      var e := s.publications[p].event;
      var ids := Registered(s, e);
      Some(s.(publications := s.publications[p := Publication(e, Sending, ids, ids, {}, {})]))
    case Send(p, id) => if s.channels[id].open then Some(Served(s, p, id)) else None
    case Subscribe(scope, buffer) =>
      Some(s.(channels := s.channels + [Fresh(scope, buffer)], linked := s.linked + {|s.channels|}))
    case Cancel(id) =>
      Some(if s.channels[id].cancelled then s
           else s.(channels := s.channels[id := s.channels[id].(cancelled := true)],
                unlinking := s.unlinking + {id}))
    case Unlink(id) =>
      Some(s.(linked := s.linked - {id}, unlinking := s.unlinking - {id}, shutting := s.shutting + {id}))
    case Shut(id) =>
      if s.channels[id].open then
        Some(s.(channels := s.channels[id := Closed(s.channels[id])], shutting := s.shutting - {id}))
      else None
    case Close => Some(if s.closer == Idle then s.(closer := Flagged) else s)
    case Gather => Some(s.(linked := {}, closer := Shutting(s.linked)))
    case ShutGathered(id) =>
      Some(s.(channels := s.channels[id := Closed(s.channels[id])], closer := Shutting(s.closer.pending - {id})))
    case Receive(id) => Some(s.(channels := s.channels[id := Taken(s.channels[id])]))
  }

  /** The state after publication `p` has sent to the open channel `id`, without waiting for room. */
  function Served(s: System, p: nat, id: SubId): System
    requires p < |s.publications| && id < |s.channels|
  {
    var c, pub := s.channels[id], s.publications[p];
    var rest := pub.(pending := pub.pending - {id});
    if Full(c) then
      s.(publications := s.publications[p := rest.(refused := pub.refused + {id})], dropped := s.dropped + 1)
    else
      s.(publications := s.publications[p := rest.(delivered := pub.delivered + {id})],
        channels := s.channels[id := Sent(c, pub.event)])
  }

  datatype Outcome = Now(s: System) | Panicked | NoRun

  function After(run: seq<Action>): Outcome {
    if run == [] then Now(START)
    else match After(run[..|run| - 1])
         case Now(s) =>
           var a := run[|run| - 1];
           if !Enabled(s, a) then NoRun
           else (match Act(s, a)
                 case None => Panicked
                 case Some(t) => Now(t))
         case Panicked => NoRun
         case NoRun => NoRun
  }

  lemma AfterLast(run: seq<Action>)
    requires run != [] && After(run) != NoRun
    ensures After(run[..|run| - 1]).Now? && Enabled(After(run[..|run| - 1]).s, run[|run| - 1])
    ensures Act(After(run[..|run| - 1]).s, run[|run| - 1])
            == if After(run).Now? then Some(After(run).s) else None
  {
  }

  // ----- What every step keeps -----

  /** The registered channels are open, and no one is about to close them. */
  ghost predicate Links(s: System) {
    && (forall id | id in s.linked :: id < |s.channels| && s.channels[id].open && id !in s.shutting)
    && (s.closer.Shutting? ==> s.linked !! s.closer.pending && forall id | id in s.closer.pending :: id < |s.channels|)
  }

  /** A cancel function that has been entered is on its way, or has closed its channel. */
  ghost predicate Cancels(s: System) {
    && s.unlinking !! s.shutting
    && (forall id | id in s.unlinking + s.shutting :: id < |s.channels| && s.channels[id].cancelled)
    && (forall id: SubId | id < |s.channels| && s.channels[id].cancelled && id !in s.unlinking + s.shutting ::
          !s.channels[id].open)
  }

  /** The audience is parted into those still to serve, those served and those that had no room. */
  ghost predicate Parted(channels: seq<Channel>, pub: Publication) {
    && pub.audience == pub.pending + pub.delivered + pub.refused
    && pub.pending !! pub.delivered && pub.pending !! pub.refused && pub.delivered !! pub.refused
    && (pub.phase != Sending ==> pub.audience == {})
    && (forall id | id in pub.audience :: id < |channels| && Matches(channels[id].scope, pub.event))
  }

  ghost predicate Kept(s: System) {
    && Links(s) && Cancels(s)
    && (forall p | 0 <= p < |s.publications| :: Parted(s.channels, s.publications[p]))
  }

  lemma LinksKept(s: System, a: Action)
    requires Links(s) && Cancels(s) && Enabled(s, a) && Act(s, a).Some?
    ensures Links(Act(s, a).value)
  {
  }

  lemma CancelsKept(s: System, a: Action)
    requires Links(s) && Cancels(s) && Enabled(s, a) && Act(s, a).Some?
    ensures Cancels(Act(s, a).value)
  {
  }

  lemma PartedKept(s: System, a: Action, p: nat)
    requires Kept(s) && Enabled(s, a) && Act(s, a).Some? && p < |Act(s, a).value.publications|
    ensures Parted(Act(s, a).value.channels, Act(s, a).value.publications[p])
  {
    if p < |s.publications| {
      assert Parted(s.channels, s.publications[p]);
    }
  }

  lemma {:induction false} EveryRunKeeps(run: seq<Action>)
    requires After(run).Now?
    ensures Kept(After(run).s)
  {
    if run == [] {
    } else {
      AfterLast(run);
      var pre, a := run[..|run| - 1], run[|run| - 1];
      EveryRunKeeps(pre);
      var s := After(pre).s;
      LinksKept(s, a);
      CancelsKept(s, a);
      forall p: nat | p < |After(run).s.publications|
        ensures Parted(After(run).s.channels, After(run).s.publications[p])
      {
        PartedKept(s, a, p);
      }
    }
  }

  /** The publication has sent everything it had to send. */
  ghost predicate Finished(s: System, p: nat) {
    p < |s.publications| && s.publications[p].phase == Sending && s.publications[p].pending == {}
  }

  // ----- Panics -----

  /** Some cancel, or `Close`, has closed the channel. */
  ghost predicate ClosedIn(run: seq<Action>, id: SubId) {
    Shut(id) in run || ShutGathered(id) in run
  }

  /** What the run says about a channel; `a` is about no other. */
  ghost predicate Tells(run: seq<Action>, s: System, id: SubId) {
    if id < |s.channels| then
      && (s.channels[id].open <==> !ClosedIn(run, id))
      && (Shut(id) in run ==> s.channels[id].cancelled && id !in s.unlinking + s.shutting)
    else !ClosedIn(run, id)
  }

  lemma {:induction false} RunTells(run: seq<Action>, id: SubId)
    requires After(run).Now?
    ensures Tells(run, After(run).s, id)
  {
    if run == [] {
    } else {
      hide After, Kept, Enabled, Act, Tells;
      AfterLast(run);
      var pre, a := run[..|run| - 1], run[|run| - 1];
      RunTells(pre, id);
      EveryRunKeeps(pre);
      assert run == pre + [a];
      TellsKept(pre, After(pre).s, a, id);
    }
  }

  lemma TellsKept(pre: seq<Action>, s: System, a: Action, id: SubId)
    requires Tells(pre, s, id) && Kept(s) && Enabled(s, a) && Act(s, a).Some?
    ensures Tells(pre + [a], Act(s, a).value, id)
  {
    assert ClosedIn(pre + [a], id) <==> ClosedIn(pre, id) || a == Shut(id) || a == ShutGathered(id);
  }

  /**
   * The next step panics exactly when it sends on a channel that has been closed since the publication
   * took its snapshot, or is a cancel closing a channel that `Close` has closed.
   */
  lemma PanicsExactly(run: seq<Action>, a: Action)
    requires After(run).Now? && Enabled(After(run).s, a)
    ensures After(run + [a]) == Panicked <==>
            (a.Send? && ClosedIn(run, a.id)) || (a.Shut? && ShutGathered(a.id) in run)
  {
    assert (run + [a])[..|run|] == run;
    if a.Send? || a.Shut? {
      RunTells(run, a.id);
    }
  }

  /** No channel is closed while a publication still has it to serve, and none by both a cancel and `Close`. */
  ghost predicate Quiet(run: seq<Action>) {
    && (forall n, p | 0 <= n < |run| && (run[n].Shut? || run[n].ShutGathered?) && After(run[..n]).Now?
          && 0 <= p < |After(run[..n]).s.publications| :: run[n].id !in After(run[..n]).s.publications[p].pending)
    && (forall id :: !(Shut(id) in run && ShutGathered(id) in run))
  }

  ghost predicate PendingOpen(s: System) {
    forall p, id | 0 <= p < |s.publications| && id in s.publications[p].pending ::
      id < |s.channels| && s.channels[id].open
  }

  lemma {:induction false} QuietNeverPanics(run: seq<Action>)
    requires Quiet(run)
    ensures After(run) != Panicked
    ensures After(run).Now? ==> PendingOpen(After(run).s)
  {
    if run != [] {
      var pre, a := run[..|run| - 1], run[|run| - 1];
      QuietBefore(run);
      QuietNeverPanics(pre);
      if After(run) != NoRun {
        AfterLast(run);
        assert run == pre + [a];
        PanicsExactly(pre, a);
        RunTellsPending(pre, a);
        if After(run).Now? {
          EveryRunKeeps(pre);
          QuietStep(After(pre).s, a);
        }
      }
    }
  }

  lemma QuietBefore(run: seq<Action>)
    requires run != [] && Quiet(run)
    ensures Quiet(run[..|run| - 1])
    ensures After(run[..|run| - 1]).Now? ==> Undisturbing(After(run[..|run| - 1]).s, run[|run| - 1])
  {
    var pre := run[..|run| - 1];
    forall n | 0 <= n < |pre| ensures run[..n] == pre[..n] && run[n] == pre[n] {
    }
  }

  /** Closing a channel, the step leaves every publication in progress alone. */
  ghost predicate Undisturbing(s: System, a: Action) {
    a.Shut? || a.ShutGathered? ==>
      forall p | 0 <= p < |s.publications| :: a.id !in s.publications[p].pending
  }

  lemma RunTellsPending(pre: seq<Action>, a: Action)
    requires After(pre).Now? && Enabled(After(pre).s, a) && PendingOpen(After(pre).s)
    ensures a.Send? ==> !ClosedIn(pre, a.id)
  {
    if a.Send? {
      RunTells(pre, a.id);
    }
  }

  lemma QuietStep(s: System, a: Action)
    requires Kept(s) && PendingOpen(s) && Undisturbing(s, a) && Enabled(s, a) && Act(s, a).Some?
    ensures PendingOpen(Act(s, a).value)
  {
  }

  lemma AfterOne(run: seq<Action>, a: Action)
    requires After(run).Now? && Enabled(After(run).s, a)
    ensures After(run + [a]) == match Act(After(run).s, a)
                                case None => Panicked
                                case Some(t) => Now(t)
  {
    assert (run + [a])[..|run|] == run;
  }

  /** A publication still has the open channel `id` to serve. */
  ghost predicate Serving(s: System, p: nat, id: SubId) {
    p < |s.publications| && id in s.publications[p].pending && id < |s.channels| && s.channels[id].open
  }

  /** Whenever a publication has a channel to serve, cancelling that subscription first makes it panic. */
  lemma CancelRaces(run: seq<Action>, p: nat, id: SubId)
    requires After(run).Now? && Serving(After(run).s, p, id) && !After(run).s.channels[id].cancelled
    ensures After(run + [Action.Cancel(id)] + [Unlink(id)] + [Shut(id)] + [Send(p, id)]) == Panicked
  {
    var one := run + [Action.Cancel(id)];
    var two := one + [Unlink(id)];
    AfterOne(run, Action.Cancel(id));
    AfterOne(one, Unlink(id));
    AfterOne(two, Shut(id));
    AfterOne(two + [Shut(id)], Send(p, id));
  }

  /** So does closing the broker, for a registered channel: the closed flag does not guard the sends. */
  lemma CloseRaces(run: seq<Action>, p: nat, id: SubId)
    requires After(run).Now? && Serving(After(run).s, p, id)
    requires After(run).s.closer == Idle && id in After(run).s.linked
    ensures After(run + [Action.Close] + [Gather] + [ShutGathered(id)] + [Send(p, id)]) == Panicked
  {
    var one := run + [Action.Close];
    var two := one + [Gather];
    AfterOne(run, Action.Close);
    AfterOne(one, Gather);
    AfterOne(two, ShutGathered(id));
    AfterOne(two + [ShutGathered(id)], Send(p, id));
  }

  /** Both can happen: one subscriber and one publication are enough. */
  lemma RaceReached(e: Event)
    ensures var run := [Action.Subscribe(None, 1)] + [Enter(e)] + [Count(0)] + [Snapshot(0)];
            && After(run).Now? && Serving(After(run).s, 0, 0) && 0 in After(run).s.linked
            && After(run).s.closer == Idle && !After(run).s.channels[0].cancelled
  {
    var one := [Action.Subscribe(None, 1)];
    var two := one + [Enter(e)];
    var three := two + [Count(0)];
    assert [] + one == one;
    AfterOne([], one[0]);
    AfterOne(one, Enter(e));
    AfterOne(two, Count(0));
    AfterOne(three, Snapshot(0));
  }
}
