/**
 * The authorization-code protocol as interleaved steps: any number of flows being started, callbacks
 * being handled and workflows waiting, over one table of states.
 */
module OAuthProtocol {
  import opened Ordering

  datatype AuthCode = AuthCode(code: string, state: string)

  /** Where `StartFlow` is: about to record the state, about to start the workflow, and its outcomes. */
  datatype StartPhase = Recording | Starting | CleaningUp | Started | Failed

  datatype Flow = Flow(state: string, workflow: string, phase: StartPhase)

  /** Where the callback handler is. */
  datatype HandlerPhase = LookingUp | Signalling(workflow: string) | Deleting(workflow: string)
    | Succeeded(workflow: string) | Refused

  datatype Handler = Handler(code: AuthCode, phase: HandlerPhase)

  datatype Stage = AwaitingCallback | Exchanging(code: AuthCode) | Mismatch(signal: Signal) | TimedOut
    | Rejected | Finished(code: AuthCode, ok: bool)

  /** A delivered signal: from a callback handler, or from elsewhere. */
  datatype Signal = Signal(code: AuthCode, sender: Option<nat>)

  /** A workflow with the state in its input; `inbox` holds every signal delivered so far. */
  datatype Workflow = Workflow(state: string, inbox: seq<Signal>, stage: Stage)

  datatype System = System(flows: seq<Flow>, handlers: seq<Handler>, mapper: map<string, string>,
      workflows: map<string, Workflow>)

  const INITIAL := System([], [], map[], map[])

  datatype Step =
    | Begin(state: string, workflow: string)
    | Put(flow: nat)
    | Start(flow: nat, running: bool, acknowledged: bool)
    | CleanUp(flow: nat)
    | Callback(code: AuthCode)
    | Get(handler: nat)
    | SendSignal(handler: nat, delivered: bool)
    | Delete(handler: nat)
    | ForeignSignal(workflow: string, code: AuthCode)
    | Select(workflow: string)
    | Timeout(workflow: string)
    | Reject(workflow: string)
    | Finish(workflow: string, ok: bool)

  predicate Running(w: Workflow) {
    w.stage.AwaitingCallback? || w.stage.Exchanging?
  }

  /** The generator's promise: a state and a workflow ID that no flow had before. */
  predicate Unused(s: System, state: string, workflow: string) {
    state != "" && forall f | f in s.flows :: f.state != state && f.workflow != workflow
  }

  /** When a step can be taken. */
  predicate Enabled(s: System, step: Step) {
    match step
    case Begin(state, w) => Unused(s, state, w)
    case Put(i) => i < |s.flows| && s.flows[i].phase == Recording
    case Start(i, running, acknowledged) => i < |s.flows| && s.flows[i].phase == Starting && (acknowledged ==> running)
    case CleanUp(i) => i < |s.flows| && s.flows[i].phase == CleaningUp
    case Callback(code) => code.code != "" && code.state != ""
    case Get(h) => h < |s.handlers| && s.handlers[h].phase == LookingUp
    case SendSignal(h, delivered) =>
      && h < |s.handlers| && s.handlers[h].phase.Signalling?
      && (delivered ==> var w := s.handlers[h].phase.workflow; w in s.workflows && Running(s.workflows[w]))
    case Delete(h) => h < |s.handlers| && s.handlers[h].phase.Deleting?
    case ForeignSignal(w, _) => w in s.workflows && Running(s.workflows[w])
    case Select(w) => w in s.workflows && s.workflows[w].stage == AwaitingCallback && s.workflows[w].inbox != []
    case Timeout(w) => w in s.workflows && s.workflows[w].stage == AwaitingCallback
    case Reject(w) => w in s.workflows && s.workflows[w].stage == AwaitingCallback
    case Finish(w, _) => w in s.workflows && s.workflows[w].stage.Exchanging?
  }

  function Reached(s: System, i: nat, phase: StartPhase): System
    requires i < |s.flows|
  {
    s.(flows := s.flows[i := s.flows[i].(phase := phase)])
  }

  function Handling(s: System, h: nat, phase: HandlerPhase): System
    requires h < |s.handlers|
  {
    s.(handlers := s.handlers[h := s.handlers[h].(phase := phase)])
  }

  function Receiving(s: System, w: string, signal: Signal): System
    requires w in s.workflows
  {
    s.(workflows := s.workflows[w := s.workflows[w].(inbox := s.workflows[w].inbox + [signal])])
  }

  function Staged(s: System, w: string, stage: Stage): System
    requires w in s.workflows
  {
    s.(workflows := s.workflows[w := s.workflows[w].(stage := stage)])
  }

  function Next(s: System, step: Step): System
    requires Enabled(s, step)
  {
    match step
    case Begin(state, w) => s.(flows := s.flows + [Flow(state, w, Recording)])
    case Put(i) => Reached(s, i, Starting).(mapper := s.mapper[s.flows[i].state := s.flows[i].workflow])
    case Start(i, running, acknowledged) =>
      var f := s.flows[i];
      Reached(s, i, if acknowledged then Started else CleaningUp).(
        workflows := if running then s.workflows[f.workflow := Workflow(f.state, [], AwaitingCallback)]
          else s.workflows)
    case CleanUp(i) => Reached(s, i, Failed).(mapper := s.mapper - {s.flows[i].state})
    case Callback(code) => s.(handlers := s.handlers + [Handler(code, LookingUp)])
    case Get(h) =>
      var state := s.handlers[h].code.state;
      Handling(s, h, if state in s.mapper then Signalling(s.mapper[state]) else Refused)
    case SendSignal(h, delivered) =>
      var w := s.handlers[h].phase.workflow;
      if delivered then Receiving(Handling(s, h, Deleting(w)), w, Signal(s.handlers[h].code, Some(h)))
      else Handling(s, h, Refused)
    case Delete(h) =>
      var it := s.handlers[h];
      Handling(s, h, Succeeded(it.phase.workflow)).(mapper := s.mapper - {it.code.state})
    case ForeignSignal(w, code) => Receiving(s, w, Signal(code, None))
    case Select(w) =>
      var first := s.workflows[w].inbox[0];
      Staged(s, w, if first.code.state == s.workflows[w].state then Exchanging(first.code) else Mismatch(first))
    case Timeout(w) => Staged(s, w, TimedOut)
    case Reject(w) => Staged(s, w, Rejected)
    case Finish(w, ok) => Staged(s, w, Finished(s.workflows[w].stage.code, ok))
  }

  /** The system after a run; none if some step of it could not be taken. */
  ghost function After(run: seq<Step>): Option<System> {
    if run == [] then Some(INITIAL)
    else match After(run[..|run| - 1])
         case None => None
         case Some(s) => if Enabled(s, run[|run| - 1]) then Some(Next(s, run[|run| - 1])) else None
  }

  // ----- The invariant -----

  /** Flow `f` generated state `state` and is the flow of workflow `w`. */
  ghost predicate Issued(s: System, f: nat, state: string, w: string) {
    f < |s.flows| && s.flows[f].state == state && s.flows[f].workflow == w
  }

  ghost predicate Belongs(s: System, state: string, w: string) {
    exists f: nat :: Issued(s, f, state, w)
  }

  ghost predicate DistinctFlows(s: System) {
    && (forall f: nat | f < |s.flows| :: s.flows[f].state != "")
    && forall f: nat, g: nat | f < g < |s.flows| :: s.flows[f].state != s.flows[g].state
         && s.flows[f].workflow != s.flows[g].workflow
  }

  /** The workflow a handler has looked up, once it has. */
  ghost function Target(h: Handler): Option<string> {
    if h.phase.Signalling? || h.phase.Deleting? || h.phase.Succeeded? then Some(h.phase.workflow) else None
  }

  /** The workflow a handler has signalled, once it has. */
  ghost function Sent(h: Handler): Option<string> {
    if h.phase.Signalling? then None else Target(h)
  }

  /** Every mapping, and every workflow a handler has found by it, is of the flow that generated the state. */
  ghost predicate MappedRight(s: System) {
    && (forall state | state in s.mapper :: Belongs(s, state, s.mapper[state]))
    && forall h: nat | h < |s.handlers| && Target(s.handlers[h]).Some? ::
         Belongs(s, s.handlers[h].code.state, Target(s.handlers[h]).value)
  }

  /** Every workflow is some started flow's, with that flow's state as input. */
  ghost predicate OwnedWorkflows(s: System) {
    forall w | w in s.workflows :: exists f: nat :: Issued(s, f, s.workflows[w].state, w) && Launched(s.flows[f])
  }

  ghost predicate Launched(f: Flow) {
    f.phase == Started || f.phase == CleaningUp || f.phase == Failed
  }

  /** A signal sent by a handler carries the state of the workflow it was sent to, and that handler sent it. */
  ghost predicate RightSignal(s: System, w: string, signal: Signal)
    requires w in s.workflows
  {
    signal.sender.Some? ==>
      && signal.code.state == s.workflows[w].state
      && signal.sender.value < |s.handlers| && s.handlers[signal.sender.value].code == signal.code
      && Sent(s.handlers[signal.sender.value]) == Some(w)
  }

  ghost predicate RightInbox(s: System, w: string)
    requires w in s.workflows
  {
    forall n: nat | n < |s.workflows[w].inbox| :: RightSignal(s, w, s.workflows[w].inbox[n])
  }

  /** A workflow goes by the first signal it gets, and leaves for a mismatch only when a stranger sent it. */
  ghost predicate RightStage(it: Workflow) {
    match it.stage
    case AwaitingCallback => true
    case TimedOut => true
    case Rejected => true
    case Exchanging(code) => it.inbox != [] && code == it.inbox[0].code && code.state == it.state
    case Finished(code, _) => it.inbox != [] && code == it.inbox[0].code && code.state == it.state
    case Mismatch(signal) =>
      it.inbox != [] && signal == it.inbox[0] && signal.code.state != it.state && signal.sender.None?
  }

  ghost predicate RightWorkflow(s: System, w: string)
    requires w in s.workflows
  {
    RightInbox(s, w) && RightStage(s.workflows[w])
  }

  ghost predicate RightWorkflows(s: System) {
    forall w | w in s.workflows :: RightWorkflow(s, w)
  }

  /** A handler that has sent its signal is in the inbox of the workflow it found. */
  ghost predicate Arrived(s: System, h: nat)
    requires h < |s.handlers|
  {
    Sent(s.handlers[h]).Some? ==>
      && Sent(s.handlers[h]).value in s.workflows
      && Signal(s.handlers[h].code, Some(h)) in s.workflows[Sent(s.handlers[h]).value].inbox
  }

  ghost predicate AllArrived(s: System) {
    forall h: nat | h < |s.handlers| :: Arrived(s, h)
  }

  /** Some handler has brought the callback of flow `f`. */
  ghost predicate Answered(s: System, f: nat)
    requires f < |s.flows|
  {
    exists h: nat :: h < |s.handlers| && s.handlers[h].phase.Succeeded? && s.handlers[h].code.state == s.flows[f].state
  }

  /** From `Put` on, a flow's state stays mapped until its callback has been brought or its start has failed. */
  ghost predicate Reachable(s: System, f: nat)
    requires f < |s.flows|
  {
    match s.flows[f].phase
    case Recording => s.flows[f].state !in s.mapper && s.flows[f].workflow !in s.workflows
    case Failed => true
    case _ => Answered(s, f) || (s.flows[f].state in s.mapper && s.mapper[s.flows[f].state] == s.flows[f].workflow)
  }

  ghost predicate AllReachable(s: System) {
    forall f: nat | f < |s.flows| :: Reachable(s, f)
  }

  /** A workflow about to be started does not exist yet. */
  ghost predicate OneStart(s: System) {
    forall f: nat | f < |s.flows| && s.flows[f].phase == Starting :: s.flows[f].workflow !in s.workflows
  }

  ghost predicate Invariant(s: System) {
    && DistinctFlows(s) && MappedRight(s) && OwnedWorkflows(s) && RightWorkflows(s) && AllArrived(s) && AllReachable(s)
    && OneStart(s) && (forall f: nat | f < |s.flows| && s.flows[f].phase == Started ::
         s.flows[f].workflow in s.workflows)
  }

  // ----- Every step keeps it -----

  /** What no step takes back. */
  ghost predicate Extends(s: System, t: System) {
    && |s.flows| <= |t.flows| && |s.handlers| <= |t.handlers|
    && (forall f: nat | f < |s.flows| :: SameFlow(s.flows[f], t.flows[f]))
    && (forall h: nat | h < |s.handlers| :: SameHandler(s.handlers[h], t.handlers[h]))
    && forall w | w in s.workflows :: w in t.workflows && SameWorkflow(s.workflows[w], t.workflows[w])
  }

  ghost predicate SameFlow(a: Flow, b: Flow) {
    b.state == a.state && b.workflow == a.workflow && (Launched(a) ==> Launched(b))
  }

  ghost predicate SameHandler(a: Handler, b: Handler) {
    b.code == a.code && (Sent(a).Some? ==> Sent(b) == Sent(a)) && (a.phase.Succeeded? ==> b.phase.Succeeded?)
  }

  ghost predicate SameWorkflow(a: Workflow, b: Workflow) {
    b.state == a.state && a.inbox <= b.inbox
  }

  lemma NextExtends(s: System, step: Step)
    requires Enabled(s, step) && OneStart(s)
    ensures Extends(s, Next(s, step))
  {
    hide Enabled, Next, SameFlow, SameHandler, SameWorkflow;
    FlowsExtend(s, step);
    HandlersExtend(s, step);
    WorkflowsExtend(s, step);
  }

  lemma FlowsExtend(s: System, step: Step)
    requires Enabled(s, step)
    ensures |s.flows| <= |Next(s, step).flows|
    ensures forall f: nat | f < |s.flows| :: SameFlow(s.flows[f], Next(s, step).flows[f])
  {
  }

  lemma HandlersExtend(s: System, step: Step)
    requires Enabled(s, step)
    ensures |s.handlers| <= |Next(s, step).handlers|
    ensures forall h: nat | h < |s.handlers| :: SameHandler(s.handlers[h], Next(s, step).handlers[h])
  {
  }

  lemma WorkflowsExtend(s: System, step: Step)
    requires Enabled(s, step) && OneStart(s)
    ensures forall w | w in s.workflows ::
              w in Next(s, step).workflows && SameWorkflow(s.workflows[w], Next(s, step).workflows[w])
  {
  }

  lemma BelongsKept(s: System, t: System, state: string, w: string)
    requires Extends(s, t) && Belongs(s, state, w)
    ensures Belongs(t, state, w)
  {
    var f: nat :| Issued(s, f, state, w);
    assert SameFlow(s.flows[f], t.flows[f]);
    assert Issued(t, f, state, w);
  }

  lemma MappingsKept(s: System, step: Step)
    requires Enabled(s, step) && MappedRight(s) && Extends(s, Next(s, step))
    ensures MappedRight(Next(s, step))
  {
    var t := Next(s, step);
    forall state | state in t.mapper ensures Belongs(t, state, t.mapper[state]) {
      if step.Put? && state == s.flows[step.flow].state {
        assert Issued(t, step.flow, state, t.mapper[state]);
      } else {
        BelongsKept(s, t, state, s.mapper[state]);
      }
    }
    forall h: nat | h < |t.handlers| && Target(t.handlers[h]).Some?
      ensures Belongs(t, t.handlers[h].code.state, Target(t.handlers[h]).value)
    {
      BelongsKept(s, t, t.handlers[h].code.state, Target(t.handlers[h]).value);
    }
  }

  lemma OwnersKept(s: System, step: Step)
    requires Enabled(s, step) && OwnedWorkflows(s) && Extends(s, Next(s, step))
    ensures OwnedWorkflows(Next(s, step))
  {
    var t := Next(s, step);
    forall w | w in t.workflows ensures exists f: nat :: Issued(t, f, t.workflows[w].state, w) && Launched(t.flows[f]) {
      if step.Start? && w == s.flows[step.flow].workflow && step.running {
        assert Issued(t, step.flow, t.workflows[w].state, w) && Launched(t.flows[step.flow]);
      } else {
        var f: nat :| Issued(s, f, s.workflows[w].state, w) && Launched(s.flows[f]);
        assert SameFlow(s.flows[f], t.flows[f]);
        assert Issued(t, f, t.workflows[w].state, w) && Launched(t.flows[f]);
      }
    }
  }

  lemma SignalKept(s: System, t: System, w: string, signal: Signal)
    requires Extends(s, t) && w in s.workflows && w in t.workflows && RightSignal(s, w, signal)
    ensures RightSignal(t, w, signal)
  {
    if signal.sender.Some? {
      assert SameHandler(s.handlers[signal.sender.value], t.handlers[signal.sender.value]);
    }
  }

  lemma ArrivalsKept(s: System, step: Step)
    requires Enabled(s, step) && AllArrived(s) && Extends(s, Next(s, step))
    ensures AllArrived(Next(s, step))
  {
    var t := Next(s, step);
    forall h: nat | h < |t.handlers| ensures Arrived(t, h) {
      if Sent(t.handlers[h]).Some? && Sent(s.handlers[h]).Some? {
        assert Arrived(s, h) && SameHandler(s.handlers[h], t.handlers[h]);
        assert SameWorkflow(s.workflows[Sent(s.handlers[h]).value], t.workflows[Sent(s.handlers[h]).value]);
      }
    }
  }

  /** Within one state the flow that issued a state, and that owns a workflow, is unique. */
  lemma SameOwner(s: System, f: nat, g: nat)
    requires DistinctFlows(s) && f < |s.flows| && g < |s.flows|
    requires s.flows[f].state == s.flows[g].state || s.flows[f].workflow == s.flows[g].workflow
    ensures f == g
  {
  }

  /** The workflow with ID `w` was given the state that flow, and no other, generated. */
  lemma TargetState(s: System, state: string, w: string)
    requires DistinctFlows(s) && OwnedWorkflows(s) && Belongs(s, state, w) && w in s.workflows
    ensures s.workflows[w].state == state
  {
    var f: nat :| Issued(s, f, state, w);
    var g: nat :| Issued(s, g, s.workflows[w].state, w) && Launched(s.flows[g]);
    SameOwner(s, f, g);
  }

  lemma WorkflowsKept(s: System, step: Step)
    requires Enabled(s, step) && Invariant(s) && Extends(s, Next(s, step))
    ensures RightWorkflows(Next(s, step))
  {
    var t := Next(s, step);
    forall w | w in t.workflows ensures RightWorkflow(t, w) {
      InboxKept(s, step, w);
      StageKept(s, step, w);
    }
  }

  /** What a step does to a workflow's inbox. */
  lemma InboxMoves(s: System, step: Step, w: string)
    requires Enabled(s, step) && OneStart(s) && w in Next(s, step).workflows
    ensures var t := Next(s, step);
      var now := t.workflows[w];
      if w !in s.workflows then now.inbox == []
      else if step.SendSignal? && step.delivered && s.handlers[step.handler].phase.workflow == w then
        && now == s.workflows[w].(inbox := s.workflows[w].inbox
             + [Signal(s.handlers[step.handler].code, Some(step.handler))])
        && t.handlers[step.handler] == s.handlers[step.handler].(phase := Deleting(w))
      else if step.ForeignSignal? && step.workflow == w then
        now == s.workflows[w].(inbox := s.workflows[w].inbox + [Signal(step.code, None)])
      else now.inbox == s.workflows[w].inbox
  {
  }

  lemma InboxKept(s: System, step: Step, w: string)
    requires Enabled(s, step) && Invariant(s) && Extends(s, Next(s, step)) && w in Next(s, step).workflows
    ensures RightInbox(Next(s, step), w)
  {
    hide Next, Belongs, OwnedWorkflows, AllArrived, AllReachable, DistinctFlows, OneStart, RightStage;
    InboxMoves(s, step, w);
    var t := Next(s, step);
    if w in s.workflows {
      assert RightWorkflow(s, w);
      assert SameWorkflow(s.workflows[w], t.workflows[w]);
      forall n: nat | n < |s.workflows[w].inbox| ensures RightSignal(t, w, t.workflows[w].inbox[n]) {
        SignalKept(s, t, w, s.workflows[w].inbox[n]);
      }
      if step.SendSignal? && step.delivered && s.handlers[step.handler].phase.workflow == w {
        TargetState(s, s.handlers[step.handler].code.state, w);
      }
    }
  }

  /** What a step does to a workflow's stage. */
  lemma StageMoves(s: System, step: Step, w: string)
    requires Enabled(s, step) && OneStart(s) && w in Next(s, step).workflows
    ensures var now := Next(s, step).workflows[w];
      if w !in s.workflows then now.stage == AwaitingCallback
      else
        var was := s.workflows[w];
        if step == Select(w) then
          && was.inbox != [] && now.inbox == was.inbox
          && var first := was.inbox[0];
            now.stage == if first.code.state == was.state then Exchanging(first.code) else Mismatch(first)
        else
          || now.stage == was.stage || now.stage == TimedOut || now.stage == Rejected
          || (was.stage.Exchanging? && now.stage.Finished? && now.stage.code == was.stage.code)
  {
  }

  lemma StageKept(s: System, step: Step, w: string)
    requires Enabled(s, step) && Invariant(s) && Extends(s, Next(s, step)) && w in Next(s, step).workflows
    ensures RightStage(Next(s, step).workflows[w])
  {
    hide Next, Enabled, Belongs, OwnedWorkflows, AllArrived, AllReachable, DistinctFlows, OneStart, MappedRight;
    StageMoves(s, step, w);
    if w in s.workflows {
      assert RightWorkflow(s, w) && SameWorkflow(s.workflows[w], Next(s, step).workflows[w]);
      if step == Select(w) {
        assert RightSignal(s, w, s.workflows[w].inbox[0]);
      }
    }
  }

  lemma AnsweredKept(s: System, t: System, f: nat)
    requires Extends(s, t) && f < |s.flows| && Answered(s, f)
    ensures Answered(t, f)
  {
    var h: nat :| h < |s.handlers| && s.handlers[h].phase.Succeeded? && s.handlers[h].code.state == s.flows[f].state;
    assert SameHandler(s.handlers[h], t.handlers[h]) && SameFlow(s.flows[f], t.flows[f]);
  }

  ghost predicate Known(s: System, state: string, w: string) {
    exists f | f in s.flows :: f.state == state || f.workflow == w
  }

  lemma MappedKnown(s: System, state: string, w: string)
    requires MappedRight(s) && state in s.mapper
    ensures Known(s, state, w)
  {
    assert Belongs(s, state, s.mapper[state]);
    var f: nat :| Issued(s, f, state, s.mapper[state]);
    assert s.flows[f] in s.flows;
  }

  lemma RunningKnown(s: System, state: string, w: string)
    requires OwnedWorkflows(s) && w in s.workflows
    ensures Known(s, state, w)
  {
    var f: nat :| Issued(s, f, s.workflows[w].state, w) && Launched(s.flows[f]);
    assert s.flows[f] in s.flows;
  }

  lemma UnusedMeans(s: System, state: string, w: string)
    requires Unused(s, state, w)
    ensures !Known(s, state, w)
  {
  }

  lemma NewFlowReachable(s: System, step: Step)
    requires step.Begin? && Enabled(s, step) && Invariant(s)
    ensures Reachable(Next(s, step), |s.flows|)
  {
    hide Known;
    UnusedMeans(s, step.state, step.workflow);
    if step.state in s.mapper {
      MappedKnown(s, step.state, step.workflow);
    }
    if step.workflow in s.workflows {
      RunningKnown(s, step.state, step.workflow);
    }
  }

  lemma ReachableKept(s: System, step: Step, f: nat)
    requires Enabled(s, step) && Invariant(s) && Extends(s, Next(s, step)) && f < |s.flows|
    ensures Reachable(Next(s, step), f)
  {
    hide MappedRight, OwnedWorkflows, RightWorkflows, AllArrived, OneStart;
    var t := Next(s, step);
    assert Reachable(s, f) && SameFlow(s.flows[f], t.flows[f]);
    if s.flows[f].phase != Recording && Answered(s, f) {
      AnsweredKept(s, t, f);
    } else if step.Delete? && s.handlers[step.handler].code.state == s.flows[f].state {
      assert t.handlers[step.handler].phase.Succeeded?;
    } else {
      OthersApart(s, step, f);
    }
  }

  /** A step of another flow touches neither this flow's mapping nor its workflow. */
  lemma OthersApart(s: System, step: Step, f: nat)
    requires DistinctFlows(s) && f < |s.flows|
    ensures step.Put? && step.flow < |s.flows| && step.flow != f ==> s.flows[step.flow].state != s.flows[f].state
    ensures step.CleanUp? && step.flow < |s.flows| && step.flow != f ==> s.flows[step.flow].state != s.flows[f].state
    ensures step.Start? && step.flow < |s.flows| && step.flow != f ==>
        s.flows[step.flow].workflow != s.flows[f].workflow
  {
  }

  lemma FlowsKept(s: System, step: Step)
    requires Enabled(s, step) && Invariant(s) && Extends(s, Next(s, step))
    ensures AllReachable(Next(s, step)) && DistinctFlows(Next(s, step))
  {
    var t := Next(s, step);
    forall f: nat | f < |t.flows| ensures Reachable(t, f) {
      if f < |s.flows| {
        ReachableKept(s, step, f);
      } else {
        NewFlowReachable(s, step);
      }
    }
    forall f: nat, g: nat | f < g < |t.flows|
      ensures t.flows[f].state != t.flows[g].state && t.flows[f].workflow != t.flows[g].workflow {
      assert SameFlow(s.flows[f], t.flows[f]);
      if g < |s.flows| {
        assert SameFlow(s.flows[g], t.flows[g]);
      } else {
        assert s.flows[f] in s.flows;
      }
    }
  }

  lemma StartsKept(s: System, step: Step)
    requires Enabled(s, step) && Invariant(s) && Extends(s, Next(s, step))
    ensures OneStart(Next(s, step))
    ensures forall f: nat | f < |Next(s, step).flows| && Next(s, step).flows[f].phase == Started ::
              Next(s, step).flows[f].workflow in Next(s, step).workflows
  {
    var t := Next(s, step);
    forall f: nat | f < |t.flows|
      ensures t.flows[f].phase == Starting ==> t.flows[f].workflow !in t.workflows
      ensures t.flows[f].phase == Started ==> t.flows[f].workflow in t.workflows
    {
      if f < |s.flows| {
        OthersApart(s, step, f);
        assert Reachable(s, f);
      }
    }
  }

  lemma Keeps(s: System, step: Step)
    requires Invariant(s) && Enabled(s, step)
    ensures Invariant(Next(s, step)) && Extends(s, Next(s, step))
  {
    hide Next, MappedRight, OwnedWorkflows, AllArrived, AllReachable, RightWorkflows, OneStart, DistinctFlows, Extends;
    NextExtends(s, step);
    MappingsKept(s, step);
    OwnersKept(s, step);
    ArrivalsKept(s, step);
    WorkflowsKept(s, step);
    FlowsKept(s, step);
    StartsKept(s, step);
  }

  lemma {:induction false} EveryRunKeeps(run: seq<Step>)
    requires After(run).Some?
    ensures Invariant(After(run).value)
  {
    hide Invariant, Next, Enabled;
    if run == [] {
      InitiallyRight();
    } else {
      EveryRunKeeps(run[..|run| - 1]);
      Keeps(After(run[..|run| - 1]).value, run[|run| - 1]);
    }
  }

  lemma ExtendsAgain(s: System, t: System, u: System)
    requires Extends(s, t) && Extends(t, u)
    ensures Extends(s, u)
  {
    forall f: nat | f < |s.flows| ensures SameFlow(s.flows[f], u.flows[f]) {
      assert SameFlow(s.flows[f], t.flows[f]) && SameFlow(t.flows[f], u.flows[f]);
    }
    forall h: nat | h < |s.handlers| ensures SameHandler(s.handlers[h], u.handlers[h]) {
      assert SameHandler(s.handlers[h], t.handlers[h]) && SameHandler(t.handlers[h], u.handlers[h]);
    }
    forall w | w in s.workflows ensures w in u.workflows && SameWorkflow(s.workflows[w], u.workflows[w]) {
      assert SameWorkflow(s.workflows[w], t.workflows[w]) && SameWorkflow(t.workflows[w], u.workflows[w]);
    }
  }

  /** However a run goes on, it takes back no flow, handler, workflow or delivered signal. */
  lemma {:induction false} LaterExtends(run: seq<Step>, later: seq<Step>)
    requires run <= later && After(later).Some?
    ensures After(run).Some? && Extends(After(run).value, After(later).value)
    decreases |later|
  {
    hide Next, Enabled, Invariant, Extends, SameFlow, SameHandler, SameWorkflow;
    if run == later {
      Unchanged(After(run).value);
    } else {
      var before := later[..|later| - 1];
      LaterExtends(run, before);
      EveryRunKeeps(before);
      Keeps(After(before).value, later[|later| - 1]);
      ExtendsAgain(After(run).value, After(before).value, After(later).value);
    }
  }

  lemma Unchanged(s: System)
    ensures Extends(s, s)
  {
  }

  lemma InitiallyRight()
    ensures Invariant(INITIAL)
  {
  }

  // ----- What it means -----

  /** Every mapping leads to the workflow, if it exists yet, whose input holds that state. */
  lemma MappingLeadsHome(run: seq<Step>, state: string)
    requires After(run).Some? && state in After(run).value.mapper
    ensures var s := After(run).value;
      Belongs(s, state, s.mapper[state])
      && (s.mapper[state] in s.workflows ==> s.workflows[s.mapper[state]].state == state)
  {
    EveryRunKeeps(run);
    var s := After(run).value;
    if s.mapper[state] in s.workflows {
      TargetState(s, state, s.mapper[state]);
    }
  }

  /** The handler signals only the flow that generated the callback's state, and no mismatch is ever its doing. */
  lemma HandlerNeverMismatches(run: seq<Step>, w: string)
    requires After(run).Some? && w in After(run).value.workflows
    ensures var it := After(run).value.workflows[w];
      (forall signal | signal in it.inbox && signal.sender.Some? :: signal.code.state == it.state)
      && (it.stage.Mismatch? ==> it.stage.signal.sender.None?)
  {
    EveryRunKeeps(run);
    var s := After(run).value;
    assert RightWorkflow(s, w);
    var it := s.workflows[w];
    forall signal | signal in it.inbox && signal.sender.Some? ensures signal.code.state == it.state {
      var n: nat :| n < |it.inbox| && it.inbox[n] == signal;
      assert RightSignal(s, w, it.inbox[n]);
    }
  }

  /** Only a code that came with the flow's own state, in the first signal, is ever exchanged. */
  lemma {:induction false} ExchangesMatch(run: seq<Step>, w: string)
    requires After(run).Some? && w in After(run).value.workflows
    requires After(run).value.workflows[w].stage.Exchanging? || After(run).value.workflows[w].stage.Finished?
    ensures var it := After(run).value.workflows[w];
      it.inbox != [] && it.stage.code == it.inbox[0].code && it.stage.code.state == it.state
  {
    EveryRunKeeps(run);
    assert RightWorkflow(After(run).value, w);
  }

  /** `StartFlow` has returned, the workflow waits, and no handler has brought the callback. */
  ghost predicate Waiting(s: System, f: nat)
    requires f < |s.flows|
  {
    && s.flows[f].phase == Started && !Answered(s, f)
    && s.flows[f].workflow in s.workflows && s.workflows[s.flows[f].workflow].stage == AwaitingCallback
  }

  /**
   * Once `StartFlow` has returned, the flow's callback can be delivered for as long as the workflow
   * waits and no handler has brought it: the state is mapped to the workflow, and a handler carrying
   * that state finds it and signals it.
   */
  lemma CallbackCanArrive(run: seq<Step>, f: nat, code: string)
    requires After(run).Some? && f < |After(run).value.flows| && code != "" && Waiting(After(run).value, f)
    ensures var s := After(run).value;
      var h, w, sent := |s.handlers|, s.flows[f].workflow, AuthCode(code, s.flows[f].state);
      var more := run + [Callback(sent), Get(h), SendSignal(h, true)];
      After(more).Some? && w in After(more).value.workflows
      && Signal(sent, Some(h)) in After(more).value.workflows[w].inbox
  {
    hide After, Enabled, Next, MappedRight, OwnedWorkflows, AllArrived, RightWorkflows, OneStart;
    EveryRunKeeps(run);
    var s := After(run).value;
    assert Reachable(s, f);
    var h, w, sent := |s.handlers|, s.flows[f].workflow, AuthCode(code, s.flows[f].state);
    Journey(s, sent, w);
    OneMore(run, Callback(sent), s);
    var s1 := Next(s, Callback(sent));
    OneMore(run + [Callback(sent)], Get(h), s1);
    assert run + [Callback(sent)] + [Get(h)] == run + [Callback(sent), Get(h)];
    OneMore(run + [Callback(sent), Get(h)], SendSignal(h, true), Next(s1, Get(h)));
    assert run + [Callback(sent), Get(h)] + [SendSignal(h, true)] ==
      run + [Callback(sent), Get(h), SendSignal(h, true)];
  }

  /** A callback whose state is mapped to a running workflow is signalled to it in three steps. */
  lemma Journey(s: System, sent: AuthCode, w: string)
    requires sent.code != "" && sent.state != "" && sent.state in s.mapper && s.mapper[sent.state] == w
    requires w in s.workflows && Running(s.workflows[w])
    ensures var h := |s.handlers|;
      Enabled(s, Callback(sent)) && Enabled(Next(s, Callback(sent)), Get(h))
      && Enabled(Next(Next(s, Callback(sent)), Get(h)), SendSignal(h, true))
    ensures var h := |s.handlers|;
      var last := Next(Next(Next(s, Callback(sent)), Get(h)), SendSignal(h, true));
      w in last.workflows && Signal(sent, Some(h)) in last.workflows[w].inbox
  {
    var h := |s.handlers|;
    var s2 := Next(Next(s, Callback(sent)), Get(h));
    assert s2.handlers[h] == Handler(sent, Signalling(w)) && s2.workflows == s.workflows;
    var last := Next(s2, SendSignal(h, true));
    assert last.workflows[w].inbox[|s.workflows[w].inbox|] == Signal(sent, Some(h));
  }

  lemma OneMore(run: seq<Step>, step: Step, s: System)
    requires After(run) == Some(s) && Enabled(s, step)
    ensures After(run + [step]) == Some(Next(s, step))
  {
    assert (run + [step])[..|run|] == run;
  }
}
