/** The durable part of an authorization: wait for the callback, exchange, identify, store. */
module OAuthWorkflow {
  import opened Ordering
  import opened TokenStore
  import OAuthProtocol
  import OAuthService

  type AuthCode = OAuthProtocol.AuthCode

  type Signal = OAuthProtocol.Signal

  datatype FlowInput = FlowInput(
    provider: string, state: string, codeVerifier: string, redirectURI: string, storeKey: string, callbackTimeout: int)

  datatype ActivityError = ConfigurationError | Transient(text: string)

  /** What the activities did, attempt by attempt, and whether the server got to hear of it. */
  datatype Event =
    | Exchanged(code: AuthCode, verifier: string, redirectURI: string, tokens: Result<TokenPair, ActivityError>,
        heard: bool)
    | Identified(pair: TokenPair, identity: Result<Identity, ActivityError>, heard: bool)
    | Stored(owner: Identity, provider: string, kept: TokenPair, heard: bool)
    | NotStored(owner: Identity, provider: string, kept: TokenPair)

  const MAXIMUM_ATTEMPTS := 3
  const DEFAULT_TIMEOUT := 30 * 60

  /**
   * The worker's activities, run by a server that retries them; a success report may be lost and the
   * attempt repeated.
   */
  class Activities {
    const providers: set<string>
    const stores: map<string, MemoryTokenStore>
    var log: seq<Event>

    constructor (providers: set<string>, stores: map<string, MemoryTokenStore>)
      ensures this.providers == providers && this.stores == stores && log == []
    {
      this.providers, this.stores, log := providers, stores, [];
    }

    method Exchange(provider: string, code: AuthCode, verifier: string, redirectURI: string, heard: bool)
      returns (r: Result<TokenPair, ActivityError>)
      modifies this
      ensures if provider in providers
              then r != Err(ConfigurationError) && log == old(log) + [Exchanged(code, verifier, redirectURI, r, heard)]
              else r == Err(ConfigurationError) && log == old(log)
    {
      if provider !in providers {
        return Err(ConfigurationError);
      }
      var granted: Option<TokenPair> := *;
      r := if granted.Some? then Ok(granted.value) else Err(Transient("exchange"));
      log := log + [Exchanged(code, verifier, redirectURI, r, heard)];
    }

    method Whoami(provider: string, tokens: TokenPair, heard: bool) returns (r: Result<Identity, ActivityError>)
      modifies this
      ensures if provider in providers
              then r != Err(ConfigurationError) && log == old(log) + [Identified(tokens, r, heard)]
              else r == Err(ConfigurationError) && log == old(log)
    {
      if provider !in providers {
        return Err(ConfigurationError);
      }
      var known: Option<Identity> := *;
      r := if known.Some? then Ok(known.value) else Err(Transient("whoami"));
      log := log + [Identified(tokens, r, heard)];
    }

    /** `cancelled` and `nonce` are what the attempt meets in the store. */
    method StoreTokens(
      storeKey: string, identity: Identity, provider: string, tokens: TokenPair, now: int, heard: bool,
      cancelled: bool, nonce: Option<nat>)
      returns (r: Result<(), ActivityError>)
      requires storeKey in stores ==> stores[storeKey].Valid()
      modifies this, StoreOf(storeKey)
      ensures storeKey !in stores ==> r == Err(ConfigurationError) && log == old(log)
      ensures storeKey in stores ==> stores[storeKey].Valid()
      ensures storeKey in stores ==> (r.Ok? <==> !cancelled && nonce.Some?) && r != Err(ConfigurationError)
      ensures storeKey in stores && r.Ok? ==>
                && stores[storeKey].Contents() == old(stores[storeKey].Contents())[KeyOf(identity, provider) := tokens]
                && log == old(log) + [Stored(identity, provider, tokens, heard)]
      ensures storeKey in stores && r.Err? ==>
                && stores[storeKey].Contents() == old(stores[storeKey].Contents())
                && log == old(log) + [NotStored(identity, provider, tokens)]
    {
      if storeKey !in stores {
        return Err(ConfigurationError);
      }
      var put := stores[storeKey].Put(cancelled, nonce, identity, provider, tokens, now);
      if put.Err? {
        log := log + [NotStored(identity, provider, tokens)];
        return Err(Transient("put"));
      }
      log := log + [Stored(identity, provider, tokens, heard)];
      return Ok(());
    }

    /** What the named store holds, if there is one. */
    ghost function StoreAt(storeKey: string): Option<map<StoreKey, TokenPair>>
      reads StoreOf(storeKey)
    {
      if storeKey in stores then Some(stores[storeKey].Contents()) else None
    }

    ghost function StoreOf(storeKey: string): set<MemoryTokenStore> {
      if storeKey in stores then {stores[storeKey]} else {}
    }

    // The same, with the retry policy of the workflow: up to MAXIMUM_ATTEMPTS attempts, the last being the
    // first one heard to succeed.

    method RunExchange(provider: string, code: AuthCode, verifier: string, redirectURI: string)
      returns (r: Result<TokenPair, ActivityError>)
      modifies this
      ensures old(log) <= log && OnlyExchanges(log, |old(log)|, code, verifier, redirectURI)
      ensures |log| <= |old(log)| + MAXIMUM_ATTEMPTS
      ensures r.Ok? ==>
                && provider in providers && Succeeded(log, |old(log)|)
                && log[|log| - 1] == Exchanged(code, verifier, redirectURI, r, true)
      ensures r.Err? ==> if provider in providers then Exhausted(log, |old(log)|) else log == old(log)
    {
      r := Err(Transient(""));
      var attempt := 0;
      while attempt < MAXIMUM_ATTEMPTS
        invariant old(log) <= log && OnlyExchanges(log, |old(log)|, code, verifier, redirectURI)
        invariant attempt <= MAXIMUM_ATTEMPTS && Unsuccessful(log, |old(log)|)
        invariant if provider in providers then |log| == |old(log)| + attempt else log == old(log)
        invariant r.Err?
      {
        var heard: bool := *;
        ghost var before := log;
        var answer := Exchange(provider, code, verifier, redirectURI, heard);
        if heard && (answer.Ok? || answer == Err(ConfigurationError)) {
          assert answer.Ok? ==> log[..|log| - 1] == before;
          return answer;
        }
        attempt := attempt + 1;
      }
    }

    method RunWhoami(provider: string, tokens: TokenPair) returns (r: Result<Identity, ActivityError>)
      modifies this
      ensures old(log) <= log && OnlyIdentifies(log, |old(log)|, tokens)
      ensures |log| <= |old(log)| + MAXIMUM_ATTEMPTS
      ensures r.Ok? ==>
                && provider in providers && Succeeded(log, |old(log)|)
                && log[|log| - 1] == Identified(tokens, r, true)
      ensures r.Err? ==> if provider in providers then Exhausted(log, |old(log)|) else log == old(log)
    {
      r := Err(Transient(""));
      var attempt := 0;
      while attempt < MAXIMUM_ATTEMPTS
        invariant old(log) <= log && OnlyIdentifies(log, |old(log)|, tokens)
        invariant attempt <= MAXIMUM_ATTEMPTS && Unsuccessful(log, |old(log)|)
        invariant if provider in providers then |log| == |old(log)| + attempt else log == old(log)
        invariant r.Err?
      {
        var heard: bool := *;
        ghost var before := log;
        var answer := Whoami(provider, tokens, heard);
        if heard && (answer.Ok? || answer == Err(ConfigurationError)) {
          assert answer.Ok? ==> log[..|log| - 1] == before;
          return answer;
        }
        attempt := attempt + 1;
      }
    }

    /** However often it is repeated, storing leaves what storing once leaves. */
    method RunStoreTokens(storeKey: string, identity: Identity, provider: string, tokens: TokenPair, now: int)
      returns (r: Result<(), ActivityError>)
      requires storeKey in stores ==> stores[storeKey].Valid()
      modifies this, StoreOf(storeKey)
      ensures old(log) <= log && OnlyStores(log, |old(log)|, identity, provider, tokens)
      ensures |log| <= |old(log)| + MAXIMUM_ATTEMPTS
      ensures storeKey in stores ==>
                && stores[storeKey].Valid()
                && stores[storeKey].Contents() ==
                   if NothingStored(log, |old(log)|) then old(stores[storeKey].Contents())
                   else old(stores[storeKey].Contents())[KeyOf(identity, provider) := tokens]
      ensures r.Ok? ==>
                && storeKey in stores
                && Succeeded(log, |old(log)|) && log[|log| - 1] == Stored(identity, provider, tokens, true)
      ensures r.Err? ==> if storeKey in stores then Exhausted(log, |old(log)|) else log == old(log)
    {
      r := Err(Transient(""));
      var attempt := 0;
      while attempt < MAXIMUM_ATTEMPTS
        invariant old(log) <= log && OnlyStores(log, |old(log)|, identity, provider, tokens)
        invariant attempt <= MAXIMUM_ATTEMPTS && Unsuccessful(log, |old(log)|)
        invariant if storeKey in stores then |log| == |old(log)| + attempt else log == old(log)
        invariant r.Err?
        invariant storeKey in stores ==>
                    && stores[storeKey].Valid()
                    && stores[storeKey].Contents() ==
                       if NothingStored(log, |old(log)|) then old(stores[storeKey].Contents())
                       else old(stores[storeKey].Contents())[KeyOf(identity, provider) := tokens]
      {
        var heard: bool, cancelled: bool, nonce: Option<nat> := *, *, *;
        ghost var before := log;
        var answer := StoreTokens(storeKey, identity, provider, tokens, now, heard, cancelled, nonce);
        assert answer.Ok? ==> log[|before|] == Stored(identity, provider, tokens, heard);
        assert answer.Err? ==> (NothingStored(log, |old(log)|) <==> NothingStored(before, |old(log)|)) by {
          assert forall k | |old(log)| <= k < |before| :: log[k] == before[k];
        }
        if heard && (answer.Ok? || answer == Err(ConfigurationError)) {
          assert answer.Ok? ==> log[..|log| - 1] == before;
          return answer;
        }
        attempt := attempt + 1;
      }
    }
  }

  ghost predicate OnlyExchanges(log: seq<Event>, n: nat, code: AuthCode, verifier: string, redirectURI: string) {
    forall k | n <= k < |log| :: log[k].Exchanged? && log[k].code == code && log[k].verifier == verifier
      && log[k].redirectURI == redirectURI
  }

  ghost predicate OnlyIdentifies(log: seq<Event>, n: nat, tokens: TokenPair) {
    forall k | n <= k < |log| :: log[k].Identified? && log[k].pair == tokens
  }

  ghost predicate NothingStored(log: seq<Event>, n: nat) {
    forall k | n <= k < |log| :: !log[k].Stored?
  }

  ghost predicate OnlyStores(log: seq<Event>, n: nat, identity: Identity, provider: string, tokens: TokenPair) {
    forall k | n <= k < |log| :: (log[k].Stored? || log[k].NotStored?) && log[k].owner == identity
      && log[k].provider == provider && log[k].kept == tokens
  }

  /** The server heard of a success. */
  ghost predicate Success(e: Event) {
    match e
    case Exchanged(_, _, _, tokens, heard) => tokens.Ok? && heard
    case Identified(_, identity, heard) => identity.Ok? && heard
    case Stored(_, _, _, heard) => heard
    case NotStored(_, _, _) => false
  }

  ghost predicate Unsuccessful(log: seq<Event>, n: nat) {
    forall k | n <= k < |log| :: !Success(log[k])
  }

  /** From `n` on all attempts were made, and the server heard of no success. */
  ghost predicate Exhausted(log: seq<Event>, n: nat) {
    |log| == n + MAXIMUM_ATTEMPTS && Unsuccessful(log, n)
  }

  /** The last attempt is the first one from `n` on that the server heard to succeed. */
  ghost predicate Succeeded(log: seq<Event>, n: nat) {
    n < |log| && Unsuccessful(log[..|log| - 1], n) && Success(log[|log| - 1])
  }

  // ----- The workflow -----

  datatype Stage = AwaitingCallback | Exchanging | Completed | Failed

  class Status {
    var stage: Stage
    var error: string
    /** Every stage the status has shown. */
    ghost var history: seq<Stage>

    constructor ()
      ensures stage == AwaitingCallback && error == "" && history == [AwaitingCallback]
    {
      stage, error, history := AwaitingCallback, "", [AwaitingCallback];
    }

    method Move(next: Stage, error: string)
      modifies this
      ensures stage == next && this.error == error && history == old(history) + [next]
    {
      stage, this.error, history := next, error, history + [next];
    }
  }

  ghost predicate Leads(a: Stage, b: Stage) {
    match a
    case AwaitingCallback => b == Exchanging || b == Failed
    case Exchanging => b == Completed || b == Failed
    case _ => false
  }

  ghost predicate Forward(history: seq<Stage>) {
    |history| > 0 && history[0] == AwaitingCallback && forall k | 0 < k < |history| :: Leads(history[k - 1], history[k])
  }

  datatype FlowError = InvalidInput | CallbackTimeout | CSRFViolation | ExchangeFailed | WhoamiFailed | StoreFailed

  predicate Incomplete(input: FlowInput) {
    input.provider == "" || input.redirectURI == "" || input.storeKey == "" || input.state == ""
      || input.codeVerifier == ""
  }

  /**
   * In `log` from `n` on, a pair is stored only after the callback's code was exchanged for it and its
   * owner identified.
   */
  ghost predicate Justified(log: seq<Event>, n: nat, input: FlowInput, first: Option<AuthCode>) {
    forall k | n <= k < |log| && log[k].Stored? :: JustifiedAt(log, n, k, input, first)
  }

  ghost predicate JustifiedAt(log: seq<Event>, n: nat, k: nat, input: FlowInput, first: Option<AuthCode>)
    requires n <= k < |log| && log[k].Stored?
  {
    && first.Some? && first.value.state == input.state && log[k].provider == input.provider
    && exists i, j | n <= i < j < k :: EarnedAt(log, i, j, input, first.value, log[k].kept, log[k].owner)
  }

  ghost predicate EarnedAt(log: seq<Event>, i: nat, j: nat, input: FlowInput, code: AuthCode, tokens: TokenPair,
      owner: Identity)
    requires i < |log| && j < |log|
  {
    log[i] == Exchanged(code, input.codeVerifier, input.redirectURI, Ok(tokens), true)
      && log[j] == Identified(tokens, Ok(owner), true)
  }

  /** Every exchange carries the callback's code and the flow's own verifier and redirect URI. */
  ghost predicate ExchangesOwn(log: seq<Event>, n: nat, input: FlowInput, first: Option<AuthCode>) {
    forall k | n <= k < |log| && log[k].Exchanged? ::
      first == Some(log[k].code) && log[k].verifier == input.codeVerifier && log[k].redirectURI == input.redirectURI
  }

  ghost function CodeOf(first: Option<Signal>): Option<AuthCode> {
    match first
    case None => None
    case Some(signal) => Some(signal.code)
  }

  /** The stage of the protocol's workflow that the outcome stands for. */
  ghost predicate Ended(stage: OAuthProtocol.Stage, r: Result<Session, FlowError>, first: Option<Signal>) {
    match r
    case Ok(_) => first.Some? && stage == OAuthProtocol.Finished(first.value.code, true)
    case Err(InvalidInput) => stage == OAuthProtocol.Rejected
    case Err(CallbackTimeout) => stage == OAuthProtocol.TimedOut
    case Err(CSRFViolation) => first.Some? && stage == OAuthProtocol.Mismatch(first.value)
    case Err(_) => first.Some? && stage == OAuthProtocol.Finished(first.value.code, false)
  }

  /** The input is that of the protocol's waiting workflow `w`; `StartFlow` gives none an empty state. */
  ghost predicate InputOf(input: FlowInput, w: string, service: OAuthService.Service)
    reads service
  {
    input.state != "" ==>
      && w in service.workflows && service.workflows[w].stage == OAuthProtocol.AwaitingCallback
      && service.workflows[w].state == input.state
  }

  /**
   * The protocol's workflow has ended as the outcome says, going by its first signal if any: it times out
   * only for want of a signal or because the timer was selected, and only a stranger's signal mismatches.
   */
  ghost predicate InStep(
    input: FlowInput, w: string, service: OAuthService.Service, r: Result<Session, FlowError>, first: Option<Signal>,
    fired: bool)
    reads service
  {
    if input.state == "" then r == Err(InvalidInput) && first.None?
    else
      && w in service.workflows && Ended(service.workflows[w].stage, r, first)
      && (first.Some? ==>
            !fired && service.workflows[w].inbox != [] && first.value == service.workflows[w].inbox[0])
      && (r == Err(CallbackTimeout) ==> fired || service.workflows[w].inbox == [])
      && (r == Err(CSRFViolation) ==> first.Some? && first.value.sender.None?)
  }

  /**
   * The workflow `w` of the protocol, running among all its other parties. `first` is the signal it goes
   * by, if it gets one in time; `fired` says whether the timer is selected although one has arrived. An
   * input without a state is none of the protocol's and takes no step of it.
   */
  method OAuthFlowWorkflow(
    input: FlowInput, w: string, service: OAuthService.Service, acts: Activities, now: int, fired: bool)
    returns (r: Result<Session, FlowError>, status: Status, ghost first: Option<Signal>)
    requires input.storeKey in acts.stores ==> acts.stores[input.storeKey].Valid()
    requires service.Valid() && InputOf(input, w, service)
    modifies acts, acts.StoreOf(input.storeKey), service, service.mapper
    ensures fresh(status) && Shown(status.history, status.stage, status.error, r)
    ensures Decided(input, first, r)
    ensures Exchanging in status.history <==> !Incomplete(input) && first.Some? && first.value.code.state == input.state
    ensures service.Valid() && old(service.trace) <= service.trace
    ensures input.state == "" <==> service.trace == old(service.trace)
    ensures InStep(input, w, service, r, first, fired)
    ensures r != Err(InvalidInput) ==>
              service.timers == old(service.timers)[
                w := if input.callbackTimeout <= 0 then DEFAULT_TIMEOUT else input.callbackTimeout]
    ensures Exchanging !in status.history ==> acts.log == old(acts.log)
    ensures input.storeKey in acts.stores ==> acts.stores[input.storeKey].Valid()
    ensures old(acts.log) <= acts.log
    ensures Accounted(old(acts.StoreAt(input.storeKey)), acts.StoreAt(input.storeKey), acts.log, |old(acts.log)|,
        input, CodeOf(first), r, now)
    ensures Outcome(acts.log, |old(acts.log)|, input, CodeOf(first), input.provider in acts.providers,
        input.storeKey in acts.stores, r)
  {
    hide Accounted, Outcome, OAuthService.Service.Valid, Incomplete, Shown, Decided, InStep, CodeOf;
    status := new Status();
    var code;
    code, first := AwaitCallback(input, w, service, status, fired);
    if code.Err? {
      NothingTried(acts.log, input, CodeOf(first), input.provider in acts.providers, input.storeKey in acts.stores,
        code.error);
      NothingDone(acts.StoreAt(input.storeKey), acts.log, input, CodeOf(first), code.error, now);
      EarlyEnd(status.error, code.error);
      return Err(code.error), status, first;
    }
    r := Conclude(input, w, service, acts, code.value, status, now, first);
  }

  /** Redeems the code that has arrived and ends the workflow. */
  method Conclude(
    input: FlowInput, w: string, service: OAuthService.Service, acts: Activities, code: AuthCode, status: Status,
    now: int, ghost first: Option<Signal>)
    returns (r: Result<Session, FlowError>)
    requires input.storeKey in acts.stores ==> acts.stores[input.storeKey].Valid()
    requires service.Valid() && w in service.workflows && service.workflows[w].stage == OAuthProtocol.Exchanging(code)
    requires first.Some? && code == first.value.code && code.state == input.state && !Incomplete(input)
    requires service.workflows[w].inbox != [] && first.value == service.workflows[w].inbox[0]
    requires status.history == [AwaitingCallback, Exchanging] && status.error == ""
    modifies acts, acts.StoreOf(input.storeKey), service, service.mapper, status
    ensures Shown(status.history, status.stage, status.error, r) && Exchanging in status.history
    ensures Decided(input, first, r) && InStep(input, w, service, r, first, false)
    ensures service.Valid() && old(service.trace) < service.trace && service.timers == old(service.timers)
    ensures input.storeKey in acts.stores ==> acts.stores[input.storeKey].Valid()
    ensures old(acts.log) <= acts.log
    ensures Accounted(old(acts.StoreAt(input.storeKey)), acts.StoreAt(input.storeKey), acts.log, |old(acts.log)|,
        input, CodeOf(first), r, now)
    ensures Outcome(acts.log, |old(acts.log)|, input, CodeOf(first), input.provider in acts.providers,
        input.storeKey in acts.stores, r)
  {
    hide Accounted, Outcome, OAuthService.Service.Valid, Incomplete, Shown, Decided, InStep, CodeOf;
    r := Redeem(input, acts, code, status, now);
    service.FinishFlow(w, r.Ok?);
    LateEnd(input, status.stage, status.error, service, w, r, first);
  }

  /** What the status showed, given how the workflow ended: stages only move forward, to the one that fits. */
  ghost predicate Shown(history: seq<Stage>, stage: Stage, error: string, r: Result<Session, FlowError>) {
    && Forward(history) && stage == history[|history| - 1]
    && stage == (if r.Ok? then Completed else Failed) && Reported(error, r)
  }

  /** What the status says went wrong. */
  ghost predicate Reported(error: string, r: Result<Session, FlowError>) {
    match r
    case Ok(_) => error == ""
    case Err(InvalidInput) => error == "missing required input"
    case Err(CallbackTimeout) => error == "callback timeout"
    case Err(CSRFViolation) => error == "state mismatch"
    case Err(ExchangeFailed) => "exchange" <= error
    case Err(WhoamiFailed) => "whoami" <= error
    case Err(StoreFailed) => "store tokens" <= error
  }

  /** Each way of ending before an exchange has its own condition. */
  ghost predicate Decided(input: FlowInput, first: Option<Signal>, r: Result<Session, FlowError>) {
    && (r == Err(InvalidInput) <==>
          input.provider == "" || input.redirectURI == "" || input.storeKey == "" || input.state == ""
          || input.codeVerifier == "")
    && (r == Err(CallbackTimeout) <==> !Incomplete(input) && first.None?)
    && (r == Err(CSRFViolation) <==> !Incomplete(input) && first.Some? && first.value.code.state != input.state)
  }

  lemma EarlyEnd(error: string, e: FlowError)
    requires Reported(error, Err(e))
    ensures Shown([AwaitingCallback, Failed], Failed, error, Err(e))
  {
  }

  lemma LateEnd(
    input: FlowInput, stage: Stage, error: string, service: OAuthService.Service, w: string,
    r: Result<Session, FlowError>, first: Option<Signal>)
    requires stage == (if r.Ok? then Completed else Failed) && Reported(error, r)
    requires r.Err? ==> r.error.ExchangeFailed? || r.error.WhoamiFailed? || r.error.StoreFailed?
    requires first.Some? && first.value.code.state == input.state && !Incomplete(input)
    requires w in service.workflows && service.workflows[w].stage == OAuthProtocol.Finished(first.value.code, r.Ok?)
    requires service.workflows[w].inbox != [] && first.value == service.workflows[w].inbox[0]
    ensures Shown([AwaitingCallback, Exchanging, stage], stage, error, r) && Decided(input, first, r)
    ensures InStep(input, w, service, r, first, false)
    ensures CodeOf(first) == Some(first.value.code)
  {
  }

  /** Waits for the callback and checks its state. */
  method AwaitCallback(input: FlowInput, w: string, service: OAuthService.Service, status: Status, fired: bool)
    returns (r: Result<AuthCode, FlowError>, ghost first: Option<Signal>)
    requires service.Valid() && InputOf(input, w, service)
    requires status.history == [AwaitingCallback] && status.error == ""
    modifies service, service.mapper, status
    ensures r.Err? ==> Decided(input, first, Err(r.error))
    ensures r.Ok? ==> !Incomplete(input)
    ensures r.Err? ==> (Incomplete(input) || first.None? || first.value.code.state != input.state)
    ensures r.Err? ==> r.error.InvalidInput? || r.error.CallbackTimeout? || r.error.CSRFViolation?
    ensures r.Err? ==>
              && status.stage == Failed && status.history == [AwaitingCallback, Failed]
              && Reported(status.error, Err(r.error))
    ensures r.Ok? ==>
              status.stage == Exchanging && status.history == [AwaitingCallback, Exchanging] && status.error == ""
    ensures r.Ok? ==> first.Some? && r.value == first.value.code && r.value.state == input.state
    ensures service.Valid() && old(service.trace) <= service.trace
    ensures input.state == "" <==> service.trace == old(service.trace)
    ensures r.Err? ==> InStep(input, w, service, Err(r.error), first, fired)
    ensures r.Ok? ==>
              && !fired && input.state != "" && w in service.workflows && service.workflows[w].inbox != []
              && first.value == service.workflows[w].inbox[0]
              && service.workflows[w].stage == OAuthProtocol.Exchanging(r.value)
    ensures r != Err(InvalidInput) ==>
              service.timers == old(service.timers)[
                w := if input.callbackTimeout <= 0 then DEFAULT_TIMEOUT else input.callbackTimeout]
  {
    first := None;
    if Incomplete(input) {
      Refuse(input, w, service, status);
      return Err(InvalidInput), None;
    }
    var callbackTimeout := input.callbackTimeout;
    if callbackTimeout <= 0 {
      callbackTimeout := DEFAULT_TIMEOUT;
    }
    var received := service.SelectSignal(w, callbackTimeout, fired);
    first := received;
    if received.None? {
      status.Move(Failed, "callback timeout");
      return Err(CallbackTimeout), first;
    }
    var code := received.value.code;
    if code.state != input.state {
      StrangerSent(service.trace, service.System(), w);
      status.Move(Failed, "state mismatch");
      return Err(CSRFViolation), first;
    }
    status.Move(Exchanging, "");
    return Ok(code), first;
  }

  /** Ends the workflow on incomplete input. */
  method Refuse(input: FlowInput, w: string, service: OAuthService.Service, status: Status)
    requires service.Valid() && InputOf(input, w, service)
    requires status.history == [AwaitingCallback] && status.error == ""
    modifies service`workflows, service`trace, status
    ensures status.stage == Failed && status.history == [AwaitingCallback, Failed]
    ensures status.error == "missing required input"
    ensures service.Valid() && if input.state == "" then service.trace == old(service.trace) else
              && service.trace == old(service.trace) + [OAuthProtocol.Reject(w)]
              && w in service.workflows && service.workflows[w].stage == OAuthProtocol.Rejected
  {
    status.Move(Failed, "missing required input");
    if input.state != "" {
      service.RejectInput(w);
    }
  }

  lemma StrangerSent(run: seq<OAuthProtocol.Step>, s: OAuthProtocol.System, w: string)
    requires OAuthProtocol.After(run) == Some(s) && w in s.workflows && s.workflows[w].stage.Mismatch?
    ensures s.workflows[w].stage.signal.sender.None?
  {
    OAuthProtocol.HandlerNeverMismatches(run, w);
  }

  /** The three activities, once the callback has arrived with the right state. */
  method Redeem(input: FlowInput, acts: Activities, code: AuthCode, status: Status, now: int)
    returns (r: Result<Session, FlowError>)
    requires input.storeKey in acts.stores ==> acts.stores[input.storeKey].Valid()
    requires code.state == input.state && status.history == [AwaitingCallback, Exchanging]
    modifies acts, acts.StoreOf(input.storeKey), status
    ensures status.history == [AwaitingCallback, Exchanging, status.stage]
    ensures status.stage == if r.Ok? then Completed else Failed
    ensures Reported(status.error, r)
    ensures r.Err? ==> r.error.ExchangeFailed? || r.error.WhoamiFailed? || r.error.StoreFailed?
    ensures input.storeKey in acts.stores ==> acts.stores[input.storeKey].Valid()
    ensures old(acts.log) <= acts.log
    ensures Accounted(old(acts.StoreAt(input.storeKey)), acts.StoreAt(input.storeKey), acts.log, |old(acts.log)|,
        input, Some(code), r, now)
    ensures Outcome(acts.log, |old(acts.log)|, input, Some(code), input.provider in acts.providers,
        input.storeKey in acts.stores, r)
  {
    hide Unsuccessful, Success, Justified, Kept, Accounted, Outcome;
    ghost var n := |acts.log|;
    var tokens := acts.RunExchange(input.provider, code, input.codeVerifier, input.redirectURI);
    if tokens.Err? {
      status.Move(Failed, "exchange");
      ExchangeGivesUp(old(acts.StoreAt(input.storeKey)), acts.log, n, input, code, input.provider in acts.providers,
        input.storeKey in acts.stores, now);
      return Err(ExchangeFailed);
    }
    ghost var one := acts.log;
    var identity := acts.RunWhoami(input.provider, tokens.value);
    if identity.Err? {
      status.Move(Failed, "whoami");
      WhoamiGivesUp(old(acts.StoreAt(input.storeKey)), one, acts.log, n, input, code, tokens.value,
        input.storeKey in acts.stores, now);
      return Err(WhoamiFailed);
    }
    ghost var two := acts.log;
    var stored := acts.RunStoreTokens(input.storeKey, identity.value, input.provider, tokens.value, now);
    LogJustified(n, one, two, acts.log, input, code, tokens.value, identity.value);
    StoreKept(old(acts.StoreAt(input.storeKey)), acts.StoreAt(input.storeKey), two, acts.log, n, input, code,
      tokens.value, identity.value);
    if stored.Err? {
      status.Move(Failed, "store tokens");
      StoreGivesUp(old(acts.StoreAt(input.storeKey)), acts.StoreAt(input.storeKey), one, two, acts.log, n, input,
        code, tokens.value, identity.value, input.storeKey in acts.stores, now);
      return Err(StoreFailed);
    }
    status.Move(Completed, "");
    r := Ok(Session(identity.value, tokens.value, now, tokens.value.expiresAt));
    AllSucceed(old(acts.StoreAt(input.storeKey)), acts.StoreAt(input.storeKey), one, two, acts.log, n, input, code,
      r.value, now);
  }

  /** The store is as it was, or has the stored pair under its owner's key and is otherwise as it was. */
  ghost predicate Kept(before: map<StoreKey, TokenPair>, after: map<StoreKey, TokenPair>, log: seq<Event>, n: nat) {
    && (forall k | n <= k < |log| && log[k].Stored? ::
          after == before[KeyOf(log[k].owner, log[k].provider) := log[k].kept])
    && (NothingStored(log, n) ==> after == before)
  }

  ghost predicate Holds(contents: map<StoreKey, TokenPair>, session: Session, provider: string) {
    KeyOf(session.identity, provider) in contents && contents[KeyOf(session.identity, provider)] == session.token
  }

  /**
   * What the activities did since the log had `n` entries: every exchange was the flow's own, every
   * stored pair was earned, the store holds what was stored last and is otherwise as it was, and a
   * session is that of the pair stored last.
   */
  ghost predicate Accounted(
    before: Option<map<StoreKey, TokenPair>>, after: Option<map<StoreKey, TokenPair>>, log: seq<Event>, n: nat,
    input: FlowInput, first: Option<AuthCode>, r: Result<Session, FlowError>, now: int)
  {
    && ExchangesOwn(log, n, input, first) && Justified(log, n, input, first)
    && (before.Some? <==> after.Some?) && (before.Some? ==> Kept(before.value, after.value, log, n))
    && (r == Err(ExchangeFailed) ==>
          first.Some? && OnlyExchanges(log, n, first.value, input.codeVerifier, input.redirectURI))
    && (r == Err(WhoamiFailed) ==> NothingStored(log, n))
    && (r.Ok? ==>
          && n < |log| && log[|log| - 1] == Stored(r.value.identity, input.provider, r.value.token, true)
          && r.value.issuedAt == now && r.value.expiresAt == r.value.token.expiresAt
          && after.Some? && Holds(after.value, r.value, input.provider))
  }

  lemma NothingDone(
    contents: Option<map<StoreKey, TokenPair>>, log: seq<Event>, input: FlowInput, first: Option<AuthCode>,
    e: FlowError, now: int)
    requires !e.ExchangeFailed?
    ensures Accounted(contents, contents, log, |log|, input, first, Err(e), now)
  {
  }

  // ----- Every outcome follows from what the activities answered -----

  /** Up to the end of `log` the flow's code was tried, the last time with success. */
  ghost predicate ExchangeDone(log: seq<Event>, n: nat, input: FlowInput, code: AuthCode, tokens: TokenPair) {
    && OnlyExchanges(log, n, code, input.codeVerifier, input.redirectURI) && Succeeded(log, n)
    && log[|log| - 1] == Exchanged(code, input.codeVerifier, input.redirectURI, Ok(tokens), true)
  }

  ghost predicate WhoamiDone(log: seq<Event>, n: nat, tokens: TokenPair, identity: Identity) {
    OnlyIdentifies(log, n, tokens) && Succeeded(log, n) && log[|log| - 1] == Identified(tokens, Ok(identity), true)
  }

  ghost predicate StoreDone(log: seq<Event>, n: nat, provider: string, tokens: TokenPair, identity: Identity) {
    && OnlyStores(log, n, identity, provider, tokens) && Succeeded(log, n)
    && log[|log| - 1] == Stored(identity, provider, tokens, true)
  }

  /** The whole of a flow that got to storing: `one` is the log after the exchange, `two` after identification. */
  ghost predicate Earned(
    one: seq<Event>, two: seq<Event>, log: seq<Event>, n: nat, input: FlowInput, code: AuthCode, tokens: TokenPair,
    identity: Identity)
  {
    one <= two <= log && ExchangeDone(one, n, input, code, tokens) && WhoamiDone(two, |one|, tokens, identity)
  }

  ghost predicate EarnedInVain(
    one: seq<Event>, two: seq<Event>, log: seq<Event>, n: nat, input: FlowInput, code: AuthCode, tokens: TokenPair,
    identity: Identity, hasStore: bool)
  {
    && Earned(one, two, log, n, input, code, tokens, identity)
    && if hasStore then OnlyStores(log, |two|, identity, input.provider, tokens) && Exhausted(log, |two|)
       else log == two
  }

  ghost predicate Unidentified(
    one: seq<Event>, log: seq<Event>, n: nat, input: FlowInput, code: AuthCode, tokens: TokenPair)
  {
    && one <= log && ExchangeDone(one, n, input, code, tokens)
    && OnlyIdentifies(log, |one|, tokens) && Exhausted(log, |one|)
  }

  ghost predicate AllDone(
    one: seq<Event>, two: seq<Event>, log: seq<Event>, n: nat, input: FlowInput, code: AuthCode, session: Session)
  {
    && Earned(one, two, log, n, input, code, session.token, session.identity)
    && StoreDone(log, |two|, input.provider, session.token, session.identity)
  }

  /**
   * What each outcome says of the log from `n` on. `registered` and `hasStore` say whether the flow's
   * provider and store are registered: a step fails exactly because its party is not, or because all its
   * attempts were refused or not heard of.
   */
  ghost predicate Outcome(
    log: seq<Event>, n: nat, input: FlowInput, code: Option<AuthCode>, registered: bool, hasStore: bool,
    r: Result<Session, FlowError>)
  {
    match r
    case Ok(session) =>
      code.Some? && registered && hasStore && exists one, two :: AllDone(one, two, log, n, input, code.value, session)
    case Err(ExchangeFailed) =>
      code.Some?
      && if registered
         then OnlyExchanges(log, n, code.value, input.codeVerifier, input.redirectURI) && Exhausted(log, n)
         else |log| == n
    case Err(WhoamiFailed) =>
      code.Some? && registered && exists one, tokens :: Unidentified(one, log, n, input, code.value, tokens)
    case Err(StoreFailed) =>
      code.Some? && registered
      && exists one, two, tokens, identity ::
           EarnedInVain(one, two, log, n, input, code.value, tokens, identity, hasStore)
    case Err(_) => |log| == n
  }

  /** The server heard of a success of each of the three steps. */
  ghost predicate EachHeard(log: seq<Event>, n: nat) {
    && (exists k :: n <= k < |log| && log[k].Exchanged? && Success(log[k]))
    && (exists k :: n <= k < |log| && log[k].Identified? && Success(log[k]))
    && (exists k :: n <= k < |log| && log[k].Stored? && Success(log[k]))
  }

  /** A flow returns its session exactly when each step was heard to succeed. */
  lemma SessionExactly(
    log: seq<Event>, n: nat, input: FlowInput, code: Option<AuthCode>, registered: bool, hasStore: bool,
    r: Result<Session, FlowError>)
    requires Outcome(log, n, input, code, registered, hasStore, r)
    ensures r.Ok? <==> EachHeard(log, n)
  {
    match r {
      case Ok(session) =>
        var one, two :| AllDone(one, two, log, n, input, code.value, session);
        assert log[|one| - 1] == one[|one| - 1] && log[|two| - 1] == two[|two| - 1];
      case Err(ExchangeFailed) =>
      case Err(WhoamiFailed) =>
        var one, tokens :| Unidentified(one, log, n, input, code.value, tokens);
        assert forall k | n <= k < |log| :: !log[k].Stored? by {
          assert forall k | n <= k < |one| :: log[k] == one[k];
        }
      case Err(StoreFailed) =>
        var one, two, tokens, identity :| EarnedInVain(one, two, log, n, input, code.value, tokens, identity, hasStore);
        assert forall k | n <= k < |log| && log[k].Stored? :: !Success(log[k]) by {
          assert forall k | n <= k < |one| :: log[k] == one[k];
          assert forall k | |one| <= k < |two| :: log[k] == two[k];
        }
      case Err(_) =>
    }
  }

  lemma NothingTried(
    log: seq<Event>, input: FlowInput, code: Option<AuthCode>, registered: bool, hasStore: bool, e: FlowError)
    requires e.InvalidInput? || e.CallbackTimeout? || e.CSRFViolation?
    ensures Outcome(log, |log|, input, code, registered, hasStore, Err(e))
  {
  }

  lemma ExchangeGivesUp(
    contents: Option<map<StoreKey, TokenPair>>, log: seq<Event>, n: nat, input: FlowInput, code: AuthCode,
    registered: bool, hasStore: bool, now: int)
    requires OnlyExchanges(log, n, code, input.codeVerifier, input.redirectURI)
    requires if registered then Exhausted(log, n) else |log| == n
    ensures Accounted(contents, contents, log, n, input, Some(code), Err(ExchangeFailed), now)
    ensures Outcome(log, n, input, Some(code), registered, hasStore, Err(ExchangeFailed))
  {
  }

  lemma WhoamiGivesUp(
    contents: Option<map<StoreKey, TokenPair>>, one: seq<Event>, log: seq<Event>, n: nat, input: FlowInput,
    code: AuthCode, tokens: TokenPair, hasStore: bool, now: int)
    requires Unidentified(one, log, n, input, code, tokens)
    ensures Accounted(contents, contents, log, n, input, Some(code), Err(WhoamiFailed), now)
    ensures Outcome(log, n, input, Some(code), true, hasStore, Err(WhoamiFailed))
  {
    assert forall k | n <= k < |one| :: log[k] == one[k];
  }

  lemma StoreGivesUp(
    before: Option<map<StoreKey, TokenPair>>, after: Option<map<StoreKey, TokenPair>>, one: seq<Event>,
    two: seq<Event>, log: seq<Event>, n: nat, input: FlowInput, code: AuthCode, tokens: TokenPair,
    identity: Identity, hasStore: bool, now: int)
    requires EarnedInVain(one, two, log, n, input, code, tokens, identity, hasStore)
    requires Justified(log, n, input, Some(code)) && ExchangesOwn(log, n, input, Some(code))
    requires (before.Some? <==> after.Some?) && (before.Some? ==> Kept(before.value, after.value, log, n))
    ensures Accounted(before, after, log, n, input, Some(code), Err(StoreFailed), now)
    ensures Outcome(log, n, input, Some(code), true, hasStore, Err(StoreFailed))
  {
    hide Justified, ExchangesOwn, Kept, EarnedInVain;
  }

  lemma AllSucceed(
    before: Option<map<StoreKey, TokenPair>>, after: Option<map<StoreKey, TokenPair>>, one: seq<Event>,
    two: seq<Event>, log: seq<Event>, n: nat, input: FlowInput, code: AuthCode, session: Session, now: int)
    requires AllDone(one, two, log, n, input, code, session)
    requires session.issuedAt == now && session.expiresAt == session.token.expiresAt
    requires Justified(log, n, input, Some(code)) && ExchangesOwn(log, n, input, Some(code))
    requires before.Some? && after.Some? && Kept(before.value, after.value, log, n)
    ensures Accounted(before, after, log, n, input, Some(code), Ok(session), now)
    ensures Outcome(log, n, input, Some(code), true, true, Ok(session))
  {
    hide Justified, ExchangesOwn;
  }

  /** What repeated storing leaves is what the whole flow leaves. */
  lemma StoreKept(
    before: Option<map<StoreKey, TokenPair>>, after: Option<map<StoreKey, TokenPair>>, two: seq<Event>,
    log: seq<Event>, n: nat, input: FlowInput, code: AuthCode, tokens: TokenPair, identity: Identity)
    requires n <= |two| && two <= log && NothingStored(two, n)
    requires OnlyStores(log, |two|, identity, input.provider, tokens)
    requires before.Some? <==> after.Some?
    requires before.Some? ==>
               after.value == if NothingStored(log, |two|) then before.value
                              else before.value[KeyOf(identity, input.provider) := tokens]
    ensures before.Some? ==> Kept(before.value, after.value, log, n)
  {
    assert forall k | n <= k < |two| :: log[k] == two[k] && !two[k].Stored?;
  }

  lemma LogJustified(
    n: nat, one: seq<Event>, two: seq<Event>, log: seq<Event>, input: FlowInput, code: AuthCode, tokens: TokenPair,
    identity: Identity)
    requires n < |one| < |two| <= |log| && one <= two <= log && code.state == input.state
    requires OnlyExchanges(one, n, code, input.codeVerifier, input.redirectURI)
    requires one[|one| - 1] == Exchanged(code, input.codeVerifier, input.redirectURI, Ok(tokens), true)
    requires OnlyIdentifies(two, |one|, tokens) && two[|two| - 1] == Identified(tokens, Ok(identity), true)
    requires OnlyStores(log, |two|, identity, input.provider, tokens)
    ensures Justified(log, n, input, Some(code)) && ExchangesOwn(log, n, input, Some(code))
    ensures NothingStored(two, n)
  {
    forall k | n <= k < |log| && log[k].Stored? ensures JustifiedAt(log, n, k, input, Some(code)) {
      assert EarnedAt(log, |one| - 1, |two| - 1, input, code, log[k].kept, log[k].owner);
    }
  }

  ghost function BothAsked(input: FlowInput, code: AuthCode, tokens: TokenPair, identity: Identity): seq<Event> {
    [ExchangeAsked(input, code, Ok(tokens)), Identified(tokens, Ok(identity), true)]
  }

  ghost function ExchangeAsked(input: FlowInput, code: AuthCode, answer: Result<TokenPair, ActivityError>): Event {
    Exchanged(code, input.codeVerifier, input.redirectURI, answer, true)
  }

  /** The same dance in one call, for a caller that already has the code; `store` may be absent. */
  method RunFlow(input: FlowInput, acts: Activities, code: AuthCode, store: MemoryTokenStore?, cancelled: bool,
      nonce: Option<nat>, now: int)
    returns (r: Result<Session, FlowError>)
    requires store != null ==> store.Valid()
    modifies acts, store
    ensures r.Ok? ==>
              && acts.log == old(acts.log) + BothAsked(input, code, r.value.token, r.value.identity)
              && r.value.issuedAt == now && r.value.expiresAt == r.value.token.expiresAt
              && (store == null || (!cancelled && nonce.Some?))
    ensures r.Err? ==> match r.error
                       case ExchangeFailed =>
                         if input.provider !in acts.providers then acts.log == old(acts.log)
                         else exists why :: acts.log == old(acts.log) + [ExchangeAsked(input, code, Err(why))]
                       case WhoamiFailed =>
                         exists tokens, why ::
                           acts.log == old(acts.log) + [ExchangeAsked(input, code, Ok(tokens)),
                                                        Identified(tokens, Err(why), true)]
                       case StoreFailed =>
                         && store != null && (cancelled || nonce.None?)
                         && exists tokens, identity ::
                              acts.log == old(acts.log) + BothAsked(input, code, tokens, identity)
                       case _ => false
    ensures store != null ==>
              && store.Valid()
              && (r.Err? ==> store.Contents() == old(store.Contents()))
              && (r.Ok? ==>
                    store.Contents() == old(store.Contents())[KeyOf(r.value.identity, input.provider) := r.value.token])
  {
    var tokens := acts.Exchange(input.provider, code, input.codeVerifier, input.redirectURI, true);
    if tokens.Err? {
      return Err(ExchangeFailed);
    }
    var identity := acts.Whoami(input.provider, tokens.value, true);
    if identity.Err? {
      assert acts.log == old(acts.log) + [ExchangeAsked(input, code, Ok(tokens.value)),
                                          Identified(tokens.value, Err(identity.error), true)];
      return Err(WhoamiFailed);
    }
    assert acts.log == old(acts.log) + BothAsked(input, code, tokens.value, identity.value);
    if store != null {
      var put := store.Put(cancelled, nonce, identity.value, input.provider, tokens.value, now);
      if put.Err? {
        return Err(StoreFailed);
      }
    }
    return Ok(Session(identity.value, tokens.value, now, tokens.value.expiresAt));
  }
}
