/**
 * The two entry points of the protocol as code: starting a flow and handling a callback. Between any
 * two of their effects, other flows, callbacks and workflows take any number of steps.
 */
module OAuthService {
  import opened Ordering
  import opened OAuthProtocol

  datatype MapperError = EmptyState

  class MemoryStateMapper {
    var table: map<string, string>

    constructor ()
      ensures table == map[]
    {
      table := map[];
    }

    method Put(state: string, workflowID: string) returns (r: Result<(), MapperError>)
      modifies this
      ensures state == "" ==> r == Err(EmptyState) && table == old(table)
      ensures state != "" ==> r == Ok(()) && table == old(table)[state := workflowID]
    {
      if state == "" {
        return Err(EmptyState);
      }
      table := table[state := workflowID];
      return Ok(());
    }

    method Get(state: string) returns (r: Option<string>)
      ensures r == if state in table then Some(table[state]) else None
    {
      return if state in table then Some(table[state]) else None;
    }

    method Delete(state: string)
      modifies this
      ensures table == old(table) - {state}
    {
      table := table - {state};
    }
  }

  // ----- Parsing the callback -----

  datatype CallbackError = BadQuery | ProviderError(name: string, description: string) | MissingCodeOrState

  function ValueOf(query: map<string, string>, name: string): string {
    if name in query then query[name] else ""
  }

  /** The query says `value` under `name`; a missing parameter is as good as an empty one. */
  ghost predicate Says(query: map<string, string>, name: string, value: string) {
    (name in query && query[name] == value) || (name !in query && value == "")
  }

  /** `query` holds the first value of each parameter; none when the query does not parse. */
  function ParseCallback(query: Option<map<string, string>>): (r: Result<AuthCode, CallbackError>)
    ensures forall code, state :: r == Ok(AuthCode(code, state)) <==>
              && query.Some? && Says(query.value, "error", "")
              && code != "" && Says(query.value, "code", code) && state != "" && Says(query.value, "state", state)
    ensures r == Err(BadQuery) <==> query.None?
    ensures forall name, description :: r == Err(ProviderError(name, description)) <==>
              && query.Some? && name != ""
              && Says(query.value, "error", name) && Says(query.value, "error_description", description)
    ensures r == Err(MissingCodeOrState) <==>
              && query.Some? && Says(query.value, "error", "")
              && (Says(query.value, "code", "") || Says(query.value, "state", ""))
  {
    if query.None? then Err(BadQuery)
    else if ValueOf(query.value, "error") != "" then
      Err(ProviderError(ValueOf(query.value, "error"), ValueOf(query.value, "error_description")))
    else if ValueOf(query.value, "code") == "" || ValueOf(query.value, "state") == "" then Err(MissingCodeOrState)
    else Ok(AuthCode(ValueOf(query.value, "code"), ValueOf(query.value, "state")))
  }

  // ----- The service -----

  /** A call of `StartFlow`, a callback being handled, a workflow. */
  datatype Process = Starter(flow: nat) | Carrier(handler: nat) | Waiter(workflow: string)

  /** The steps that only the given process takes. */
  predicate Own(step: Step, p: Process) {
    match step
    case Put(i) => p == Starter(i)
    case Start(i, _, _) => p == Starter(i)
    case CleanUp(i) => p == Starter(i)
    case Get(h) => p == Carrier(h)
    case SendSignal(h, _) => p == Carrier(h)
    case Delete(h) => p == Carrier(h)
    case Select(w) => p == Waiter(w)
    case Timeout(w) => p == Waiter(w)
    case Reject(w) => p == Waiter(w)
    case Finish(w, _) => p == Waiter(w)
    case _ => false
  }

  ghost predicate Present(s: System, p: Process) {
    match p
    case Starter(i) => i < |s.flows|
    case Carrier(h) => h < |s.handlers|
    case Waiter(w) => w in s.workflows
  }

  /** The process stands where it stood; a workflow may have got more signals. */
  ghost predicate Undisturbed(s: System, t: System, p: Process)
    requires Present(s, p)
  {
    Present(t, p) &&
    match p
    case Starter(i) => t.flows[i] == s.flows[i]
    case Carrier(h) => t.handlers[h] == s.handlers[h]
    case Waiter(w) =>
      && t.workflows[w].state == s.workflows[w].state && t.workflows[w].stage == s.workflows[w].stage
      && s.workflows[w].inbox <= t.workflows[w].inbox
  }

  lemma OthersLeaveAlone(s: System, step: Step, p: Process)
    requires Invariant(s) && Enabled(s, step) && !Own(step, p) && Present(s, p)
    ensures Undisturbed(s, Next(s, step), p)
  {
    hide MappedRight, OwnedWorkflows, RightWorkflows, AllArrived, AllReachable, DistinctFlows;
    match p {
      case Starter(_) =>
      case Carrier(_) =>
      case Waiter(_) =>
    }
  }

  datatype StartInput = StartInput(provider: string, redirectURI: string, storeKey: string, taskQueue: string,
      prefix: string)

  datatype StartResult = StartResult(authURL: string, workflowID: string, state: string)

  datatype StartError = MissingInput | UnknownProvider | AuthorizeFailed | PutFailed | ExecuteFailed

  /** What the provider's authorize step answers: the URL to send the user to, and the state in it. */
  datatype Redirect = Redirect(url: string, state: string)

  datatype Response = BadRequest | ServerError | Success

  class Service {
    const mapper: MemoryStateMapper
    var flows: seq<Flow>
    var handlers: seq<Handler>
    var workflows: map<string, Workflow>
    /** How long each workflow's wait for its callback may take. */
    var timers: map<string, int>
    /** Every step taken so far, by anyone. */
    ghost var trace: seq<Step>

    function System(): System
      reads this, mapper
    {
      OAuthProtocol.System(flows, handlers, mapper.table, workflows)
    }

    ghost predicate Valid()
      reads this, mapper
    {
      After(trace) == Some(System())
    }

    ghost predicate LastStep(step: Step)
      reads this
    {
      trace != [] && trace[|trace| - 1] == step
    }

    constructor ()
      ensures Valid() && fresh(mapper) && trace == []
    {
      mapper := new MemoryStateMapper();
      flows, handlers, workflows, timers, trace := [], [], map[], map[], [];
    }

    /** Everyone but `p` takes any number of steps. */
    method Others(p: Process)
      requires Valid() && Present(System(), p)
      modifies this, mapper
      ensures Valid() && old(trace) <= trace && timers == old(timers)
      ensures Undisturbed(old(System()), System(), p)
    {
      var n: nat := *;
      while n > 0
        invariant Valid() && old(trace) <= trace && timers == old(timers)
        invariant Undisturbed(old(System()), System(), p)
      {
        var step: Step := *;
        if Enabled(System(), step) && !Own(step, p) {
          Take(step, p);
        }
        n := n - 1;
      }
    }

    /** A step of someone else. */
    method Take(step: Step, ghost p: Process)
      requires Valid() && Present(System(), p) && Enabled(System(), step) && !Own(step, p)
      modifies this, mapper
      ensures Valid() && trace == old(trace) + [step] && timers == old(timers)
      ensures Undisturbed(old(System()), System(), p)
    {
      EveryRunKeeps(trace);
      OthersLeaveAlone(System(), step, p);
      OneMore(trace, step, System());
      var next := Next(System(), step);
      flows, handlers, workflows, mapper.table := next.flows, next.handlers, next.workflows, next.mapper;
      trace := trace + [step];
    }

    /**
     * `registered` and `redirect` are the answers of the provider registry and of its authorize step,
     * `id` is the random part of the workflow ID, and `started` says whether the server starts the workflow
     * and whether the client gets to know.
     */
    method StartFlow(input: StartInput, registered: bool, redirect: Option<Redirect>, id: string,
        started: (bool, bool))
      returns (r: Result<StartResult, StartError>)
      requires Valid()
      requires redirect.Some? && redirect.value.state != "" ==>
          Unused(System(), redirect.value.state, WorkflowID(input, id))
      modifies this, mapper
      ensures Valid() && old(trace) <= trace
      ensures r.Err? && !r.error.ExecuteFailed? ==> System() == old(System())
      ensures r.Ok? ==>
                && redirect.Some?
                && r.value.authURL == redirect.value.url && r.value.state == redirect.value.state
                && r.value.workflowID
                   == (if input.prefix == "" then "oauth-flow" else input.prefix) + "-" + input.provider + "-" + id
                && r.value.workflowID in workflows
                && workflows[r.value.workflowID] == Workflow(r.value.state, [], AwaitingCallback)
                && r.value.state in mapper.table && mapper.table[r.value.state] == r.value.workflowID
      ensures r == Err(ExecuteFailed) ==> redirect.Some? && redirect.value.state !in mapper.table
      ensures r.Ok? ==> LastStep(Start(|old(flows)|, true, true))
      ensures r == Err(ExecuteFailed) ==> LastStep(CleanUp(|old(flows)|))
      ensures r == Err(MissingInput) <==>
              input.provider == "" || input.redirectURI == "" || input.storeKey == "" || input.taskQueue == ""
      ensures r == Err(UnknownProvider) <==> Complete(input) && !registered
      ensures r == Err(AuthorizeFailed) <==> Complete(input) && registered && redirect.None?
      ensures r == Err(PutFailed) <==> Complete(input) && registered && redirect.Some? && redirect.value.state == ""
      ensures r.Ok? <==>
              && Complete(input) && registered && redirect.Some? && redirect.value.state != ""
              && started == (true, true)
    {
      if input.provider == "" || input.redirectURI == "" || input.storeKey == "" || input.taskQueue == "" {
        return Err(MissingInput);
      }
      if !registered {
        return Err(UnknownProvider);
      }
      if redirect.None? {
        return Err(AuthorizeFailed);
      }
      var state, wfID := redirect.value.state, WorkflowID(input, id);
      if state == "" {
        var refused := mapper.Put(state, wfID);
        assert refused.Err?;
        return Err(PutFailed);
      }
      var acknowledged := Launch(state, wfID, started);
      if !acknowledged {
        return Err(ExecuteFailed);
      }
      return Ok(StartResult(redirect.value.url, wfID, state));
    }

    /** Records the state, starts the workflow, and removes the mapping again if that fails. */
    method Launch(state: string, wfID: string, started: (bool, bool)) returns (acknowledged: bool)
      requires Valid() && Unused(System(), state, wfID)
      modifies this, mapper
      ensures Valid() && old(trace) <= trace && (acknowledged <==> started == (true, true))
      ensures acknowledged ==>
                && wfID in workflows && workflows[wfID] == Workflow(state, [], AwaitingCallback)
                && state in mapper.table && mapper.table[state] == wfID
                && LastStep(Start(|old(flows)|, true, true))
      ensures !acknowledged ==> state !in mapper.table && LastStep(CleanUp(|old(flows)|))
    {
      hide Unused, After, Undisturbed;
      var flow := Prepare(state, wfID);
      Pause(flow);
      Record(flow);
      Pause(flow);
      acknowledged := Execute(flow, started);
      if !acknowledged {
        Pause(flow);
        Forget(flow);
        return;
      }
      StartedMeans(trace, System(), flow);
    }

    method Pause(flow: nat)
      requires Valid() && flow < |flows|
      modifies this, mapper
      ensures Valid() && old(trace) <= trace && flow < |flows| && flows[flow] == old(flows)[flow]
    {
      Others(Starter(flow));
    }

    static ghost predicate Complete(input: StartInput) {
      input.provider != "" && input.redirectURI != "" && input.storeKey != "" && input.taskQueue != ""
    }

    static function WorkflowID(input: StartInput, id: string): string {
      (if input.prefix == "" then "oauth-flow" else input.prefix) + "-" + input.provider + "-" + id
    }

    method Prepare(state: string, wfID: string) returns (flow: nat)
      requires Valid() && Unused(System(), state, wfID)
      modifies this
      ensures Valid() && trace == old(trace) + [Begin(state, wfID)]
      ensures flow == |old(flows)| < |flows| && flows[flow] == Flow(state, wfID, Recording)
    {
      flow := |flows|;
      OneMore(trace, Begin(state, wfID), System());
      flows := flows + [Flow(state, wfID, Recording)];
      trace := trace + [Begin(state, wfID)];
    }

    method Record(flow: nat)
      requires Valid() && flow < |flows| && flows[flow].phase == Recording
      modifies this, mapper
      ensures Valid() && trace == old(trace) + [Step.Put(flow)]
      ensures flow < |flows| && flows[flow] == old(flows)[flow].(phase := Starting)
      ensures mapper.table == old(mapper.table)[flows[flow].state := flows[flow].workflow]
    {
      OneMore(trace, Step.Put(flow), System());
      EveryRunKeeps(trace);
      var r := mapper.Put(flows[flow].state, flows[flow].workflow);
      flows := flows[flow := flows[flow].(phase := Starting)];
      trace := trace + [Step.Put(flow)];
    }

    /** The client may fail before or after the workflow has really been started. */
    method Execute(flow: nat, started: (bool, bool)) returns (acknowledged: bool)
      requires Valid() && flow < |flows| && flows[flow].phase == Starting
      modifies this
      ensures Valid() && flow < |flows| && (acknowledged <==> started == (true, true))
      ensures flows[flow] == old(flows)[flow].(phase := if acknowledged then Started else CleaningUp)
      ensures acknowledged ==> trace == old(trace) + [Start(flow, true, true)]
      ensures !acknowledged ==> trace == old(trace) + [Start(flow, started.0, false)]
      ensures acknowledged ==>
                && flows[flow].workflow in workflows
                && workflows[flows[flow].workflow] == Workflow(flows[flow].state, [], AwaitingCallback)
    {
      var f := flows[flow];
      var running := started.0;
      acknowledged := running && started.1;
      OneMore(trace, Start(flow, running, acknowledged), System());
      if running {
        workflows := workflows[f.workflow := Workflow(f.state, [], AwaitingCallback)];
      }
      flows := flows[flow := f.(phase := if acknowledged then Started else CleaningUp)];
      trace := trace + [Start(flow, running, acknowledged)];
    }

    method Forget(flow: nat)
      requires Valid() && flow < |flows| && flows[flow].phase == CleaningUp
      modifies this, mapper
      ensures Valid() && trace == old(trace) + [CleanUp(flow)] && flow < |flows|
      ensures flows[flow] == old(flows)[flow].(phase := StartPhase.Failed) && flows[flow].state !in mapper.table
    {
      OneMore(trace, CleanUp(flow), System());
      mapper.Delete(flows[flow].state);
      flows := flows[flow := flows[flow].(phase := StartPhase.Failed)];
      trace := trace + [CleanUp(flow)];
    }

    /** Handles one callback request; `refused` says whether signalling fails even if the workflow runs. */
    method HandleCallback(query: Option<map<string, string>>, refused: bool) returns (response: Response)
      requires Valid()
      modifies this, mapper
      ensures Valid() && old(trace) <= trace
      ensures ParseCallback(query).Err? ==> response == BadRequest && System() == old(System())
      ensures ParseCallback(query).Ok? ==> Handled(response, |old(handlers)|, ParseCallback(query).value, refused)
    {
      var code := ParseCallback(query);
      if code.Err? {
        return BadRequest;
      }
      response := Bring(code.value, refused);
    }

    /**
     * How handler `h` ended, the last step being the one that decided. Success means the code lies with
     * the workflow that holds its state, and the state is mapped no more; otherwise the workflow could not
     * be signalled, or the state was not mapped.
     */
    ghost predicate Handled(response: Response, h: nat, code: AuthCode, refused: bool)
      reads this, mapper
    {
      && h < |handlers| && handlers[h].code == code
      && match response
         case Success => Brought(System(), h) && code.state !in mapper.table && LastStep(Step.Delete(h))
         case ServerError =>
           handlers[h].phase == Refused && LastStep(SendSignal(h, false)) && (refused || Gone(System(), code.state))
         case BadRequest =>
           handlers[h].phase == Refused && LastStep(Step.Get(h)) && code.state !in mapper.table
    }

    /** Brings a parsed callback to its workflow. */
    method Bring(code: AuthCode, refused: bool) returns (response: Response)
      requires Valid() && code.code != "" && code.state != ""
      modifies this, mapper
      ensures Valid() && old(trace) <= trace && Handled(response, |old(handlers)|, code, refused)
    {
      hide After, Brought, Enabled, Gone;
      var h := Arrive(code);
      Yield(h);
      var found := Find(h);
      if !found {
        return BadRequest;
      }
      Yield(h);
      response := Deliver(h, refused);
    }

    /** Signals the workflow that was found and, once that has succeeded, removes the mapping. */
    method Deliver(h: nat, refused: bool) returns (response: Response)
      requires Valid() && h < |handlers| && handlers[h].phase.Signalling?
      modifies this, mapper
      ensures Valid() && old(trace) <= trace && response != BadRequest
      ensures Handled(response, h, old(handlers)[h].code, refused)
    {
      hide After, Brought, Enabled, Next, Gone;
      ghost var before := System();
      var delivered := SignalWorkflow(h, refused);
      if !delivered {
        if !refused {
          TargetGone(old(trace), before, System(), h);
        }
        return ServerError;
      }
      Yield(h);
      Erase(h);
      BroughtMeans(trace, System(), h);
      return Success;
    }

    method Yield(h: nat)
      requires Valid() && h < |handlers|
      modifies this, mapper
      ensures Valid() && old(trace) <= trace && h < |handlers| && handlers[h] == old(handlers)[h]
    {
      Others(Carrier(h));
    }

    method Arrive(code: AuthCode) returns (h: nat)
      requires Valid() && code.code != "" && code.state != ""
      modifies this
      ensures Valid() && trace == old(trace) + [Callback(code)]
      ensures h == |old(handlers)| < |handlers| && handlers[h] == Handler(code, LookingUp)
    {
      h := |handlers|;
      OneMore(trace, Callback(code), System());
      handlers := handlers + [Handler(code, LookingUp)];
      trace := trace + [Callback(code)];
    }

    method Find(h: nat) returns (found: bool)
      requires Valid() && h < |handlers| && handlers[h].phase == LookingUp
      modifies this
      ensures Valid() && h < |handlers| && handlers[h].code == old(handlers)[h].code
      ensures if found then handlers[h].phase.Signalling? else handlers[h].phase == Refused
      ensures found <==> handlers[h].code.state in mapper.table
      ensures trace == old(trace) + [Step.Get(h)]
    {
      OneMore(trace, Step.Get(h), System());
      var w := mapper.Get(handlers[h].code.state);
      handlers := handlers[h := handlers[h].(phase := if w.Some? then Signalling(w.value) else Refused)];
      trace := trace + [Step.Get(h)];
      return w.Some?;
    }

    /** Signalling fails if the workflow does not run, and may be refused even if it does. */
    method SignalWorkflow(h: nat, refused: bool) returns (delivered: bool)
      requires Valid() && h < |handlers| && handlers[h].phase.Signalling?
      modifies this
      ensures Valid() && h < |handlers| && handlers[h].code == old(handlers)[h].code
      ensures if delivered then handlers[h].phase.Deleting? else handlers[h].phase == Refused
      ensures trace == old(trace) + [SendSignal(h, delivered)] && flows == old(flows)
      ensures delivered <==>
              && !refused && old(handlers)[h].phase.workflow in old(workflows)
              && Running(old(workflows)[old(handlers)[h].phase.workflow])
      ensures !delivered ==> workflows == old(workflows)
    {
      var w, code := handlers[h].phase.workflow, handlers[h].code;
      delivered := !refused && w in workflows && Running(workflows[w]);
      OneMore(trace, SendSignal(h, delivered), System());
      if delivered {
        workflows := workflows[w := workflows[w].(inbox := workflows[w].inbox + [Signal(code, Some(h))])];
      }
      handlers := handlers[h := handlers[h].(phase := if delivered then Deleting(w) else Refused)];
      trace := trace + [SendSignal(h, delivered)];
    }

    method Erase(h: nat)
      requires Valid() && h < |handlers| && handlers[h].phase.Deleting?
      modifies this, mapper
      ensures Valid() && h < |handlers| && handlers[h].code == old(handlers)[h].code && handlers[h].phase.Succeeded?
      ensures trace == old(trace) + [Step.Delete(h)] && handlers[h].code.state !in mapper.table
    {
      OneMore(trace, Step.Delete(h), System());
      mapper.Delete(handlers[h].code.state);
      handlers := handlers[h := handlers[h].(phase := Succeeded(handlers[h].phase.workflow))];
      trace := trace + [Step.Delete(h)];
    }

    // The waiting workflow.

    /**
     * Waits for a signal or the timer; the oldest signal is taken, however many have arrived. `fired` says
     * whether the timer is selected although a signal has arrived.
     */
    method SelectSignal(w: string, timeout: int, fired: bool) returns (first: Option<Signal>)
      requires Valid() && w in workflows && workflows[w].stage == AwaitingCallback
      modifies this, mapper
      ensures Valid() && old(trace) < trace && timers == old(timers)[w := timeout] && w in workflows
      ensures workflows[w].state == old(workflows)[w].state && old(workflows)[w].inbox <= workflows[w].inbox
      ensures first.None? ==> workflows[w].stage == TimedOut && LastStep(Timeout(w))
      ensures first.None? <==> fired || workflows[w].inbox == []
      ensures first.Some? ==>
                && workflows[w].inbox != [] && first.value == workflows[w].inbox[0] && LastStep(Select(w))
                && workflows[w].stage == if first.value.code.state == workflows[w].state
                                         then Exchanging(first.value.code)
                                         else Mismatch(first.value)
    {
      timers := timers[w := timeout];
      Others(Waiter(w));
      if workflows[w].inbox == [] || fired {
        Become(w, Timeout(w), TimedOut);
        return None;
      }
      var signal := workflows[w].inbox[0];
      var matches := signal.code.state == workflows[w].state;
      Become(w, Select(w), if matches then Exchanging(signal.code) else Mismatch(signal));
      return Some(signal);
    }

    /** The workflow takes a step of its own to `stage`. */
    method Become(w: string, step: Step, stage: Stage)
      requires Valid() && Enabled(System(), step) && w in workflows
          && Next(System(), step) == Staged(System(), w, stage)
      modifies this`workflows, this`trace
      ensures Valid() && trace == old(trace) + [step]
      ensures workflows == old(workflows)[w := old(workflows)[w].(stage := stage)]
    {
      OneMore(trace, step, System());
      workflows := workflows[w := workflows[w].(stage := stage)];
      trace := trace + [step];
    }

    /** The workflow ends before it has waited. */
    method RejectInput(w: string)
      requires Valid() && w in workflows && workflows[w].stage == AwaitingCallback
      modifies this`workflows, this`trace
      ensures Valid() && trace == old(trace) + [Reject(w)] && w in workflows && workflows[w].stage == Rejected
    {
      Become(w, Reject(w), Rejected);
    }

    /** The workflow ends after its exchange; others have gone on meanwhile. */
    method FinishFlow(w: string, ok: bool)
      requires Valid() && w in workflows && workflows[w].stage.Exchanging?
      modifies this, mapper
      ensures Valid() && old(trace) < trace && LastStep(Finish(w, ok)) && timers == old(timers) && w in workflows
      ensures workflows[w].stage == Finished(old(workflows)[w].stage.code, ok)
      ensures workflows[w].state == old(workflows)[w].state && old(workflows)[w].inbox <= workflows[w].inbox
    {
      Others(Waiter(w));
      Become(w, Finish(w, ok), Finished(workflows[w].stage.code, ok));
    }
  }

  /** The callback of handler `h` lies in the inbox of the workflow whose input holds the callback's state. */
  ghost predicate Brought(s: System, h: nat) {
    && h < |s.handlers| && s.handlers[h].phase.Succeeded?
    && var w := s.handlers[h].phase.workflow;
      w in s.workflows && s.workflows[w].state == s.handlers[h].code.state
        && Signal(s.handlers[h].code, Some(h)) in s.workflows[w].inbox
  }

  /** Some flow generated the state, and its workflow does not run. */
  ghost predicate Gone(s: System, state: string) {
    exists f: nat :: f < |s.flows| && s.flows[f].state == state && Stopped(s, s.flows[f].workflow)
  }

  ghost predicate Stopped(s: System, w: string) {
    w in s.workflows ==> !Running(s.workflows[w])
  }

  lemma TargetGone(run: seq<Step>, s: System, t: System, h: nat)
    requires After(run) == Some(s) && h < |s.handlers| && s.handlers[h].phase.Signalling?
    requires Stopped(s, s.handlers[h].phase.workflow) && t.flows == s.flows && t.workflows == s.workflows
    ensures Gone(t, s.handlers[h].code.state)
  {
    EveryRunKeeps(run);
    assert Belongs(s, s.handlers[h].code.state, s.handlers[h].phase.workflow);
    var f: nat :| Issued(s, f, s.handlers[h].code.state, s.handlers[h].phase.workflow);
    assert Stopped(t, t.flows[f].workflow);
  }

  lemma BroughtMeans(run: seq<Step>, s: System, h: nat)
    requires After(run) == Some(s) && h < |s.handlers| && s.handlers[h].phase.Succeeded?
    ensures Brought(s, h)
  {
    EveryRunKeeps(run);
    assert Arrived(s, h);
    TargetState(s, s.handlers[h].code.state, s.handlers[h].phase.workflow);
  }

  /** A flow just started, whose workflow has got no signal, is mapped to it. */
  lemma StartedMeans(run: seq<Step>, s: System, f: nat)
    requires After(run) == Some(s) && f < |s.flows| && s.flows[f].phase == Started
    requires s.flows[f].workflow in s.workflows && s.workflows[s.flows[f].workflow].inbox == []
    ensures s.flows[f].state in s.mapper && s.mapper[s.flows[f].state] == s.flows[f].workflow
  {
    EveryRunKeeps(run);
    assert Reachable(s, f);
    if Answered(s, f) {
      var h: nat :| h < |s.handlers| && s.handlers[h].phase.Succeeded? && s.handlers[h].code.state == s.flows[f].state;
      AnswerIsDelivered(s, f, h);
    }
  }

  lemma AnswerIsDelivered(s: System, f: nat, h: nat)
    requires Invariant(s) && f < |s.flows| && h < |s.handlers| && s.handlers[h].phase.Succeeded?
    requires s.handlers[h].code.state == s.flows[f].state
    ensures s.flows[f].workflow in s.workflows && s.workflows[s.flows[f].workflow].inbox != []
  {
    assert Arrived(s, h);
    var w := s.handlers[h].phase.workflow;
    assert Belongs(s, s.handlers[h].code.state, w);
    var g: nat :| Issued(s, g, s.handlers[h].code.state, w);
    SameOwner(s, f, g);
  }
}
