/**
 * Waiting for a verdict on several channels at once: one waiter per channel, answers arriving in any
 * order through a bounded queue, the first real verdict winning.
 */
module Dispatch {
  import opened Ordering

  datatype Receipt = Receipt(channel: string, target: string, native: string)

  datatype Actor = Actor(canonical: string, raw: map<string, string>)

  datatype Verdict = Verdict(choice: string, actor: Actor, channel: string)

  /** What a channel's wait comes back with. */
  datatype Answer = Decided(verdict: Verdict) | TimedOut | Broken(text: string)

  datatype AwaitError =
    | NoReceipts
    | UnknownChannel(name: string)
    | NotSupported(name: string)
    | Timeout
    | ContextDone
    | AllFailed
    | Adapter(text: string)

  /** A registered channel: whether it can post and whether it can wait. */
  datatype Channel = Channel(notifies: bool, awaits: bool)

  datatype Target = Target(channel: string, target: string)

  /** One receipt per successful post, and the channel of every failed one. */
  datatype PostResult = PostResult(receipts: seq<Receipt>, errors: seq<string>)

  datatype NotifyError = RouterFailed | NoTarget

  predicate Winning(a: Answer) {
    a.Decided? && a.verdict.choice != ""
  }

  // ----- Grouping -----

  /** The receipts of one channel, in order. */
  function Of(receipts: seq<Receipt>, c: string): seq<Receipt> {
    if receipts == [] then []
    else
      var rest := Of(receipts[..|receipts| - 1], c);
      if receipts[|receipts| - 1].channel == c then rest + [receipts[|receipts| - 1]] else rest
  }

  /** One group is the receipts on that channel, each kept, in the order they are in. */
  lemma {:induction false} OfMeans(a: seq<Receipt>, b: seq<Receipt>, r: Receipt, c: string)
    ensures Of([r], c) == if r.channel == c then [r] else []
    ensures Of(a + b, c) == Of(a, c) + Of(b, c)
    decreases |b|
  {
    assert [r][..0] == [];
    if b == [] {
      assert a + b == a;
    } else {
      var n := |b| - 1;
      OfMeans(a, b[..n], r, c);
      assert (a + b)[..|a + b| - 1] == a + b[..n];
    }
  }

  ghost predicate Grouped(groups: map<string, seq<Receipt>>, receipts: seq<Receipt>) {
    forall c :: if c in groups then groups[c] == Of(receipts, c) != [] else Of(receipts, c) == []
  }

  lemma {:induction false} OfSome(receipts: seq<Receipt>, c: string)
    ensures Of(receipts, c) != [] <==> exists r :: r in receipts && r.channel == c
  {
    if receipts == [] {
    } else {
      OfSome(receipts[..|receipts| - 1], c);
    }
  }

  lemma GroupOne(groups: map<string, seq<Receipt>>, done: seq<Receipt>, r: Receipt)
    requires Grouped(groups, done)
    ensures Grouped(groups[r.channel := (if r.channel in groups then groups[r.channel] else []) + [r]], done + [r])
  {
    assert (done + [r])[..|done|] == done;
  }

  method Group(receipts: seq<Receipt>) returns (groups: map<string, seq<Receipt>>)
    ensures Grouped(groups, receipts)
  {
    groups := map[];
    var i := 0;
    while i < |receipts|
      invariant 0 <= i <= |receipts| && Grouped(groups, receipts[..i])
    {
      var c := receipts[i].channel;
      GroupOne(groups, receipts[..i], receipts[i]);
      assert receipts[..i + 1] == receipts[..i] + [receipts[i]];
      groups := groups[c := (if c in groups then groups[c] else []) + [receipts[i]]];
      i := i + 1;
    }
    assert receipts[..i] == receipts;
  }

  // ----- The race -----

  /**
   * Running waiters and their answers. A waiter answers once, by putting its answer in a queue of
   * `slots` places; `arrived` are all the answers in the order they came, of which `taken` were read.
   */
  class Race {
    const slots: nat
    var started: set<string>
    /** The receipts each waiter was given. */
    var asked: map<string, seq<Receipt>>
    var waiting: set<string>
    var arrived: seq<(string, Answer)>
    var taken: nat

    /** Every started waiter runs or has answered once, and there is room for all their answers. */
    ghost predicate Valid()
      reads this
    {
      && asked.Keys == started && taken <= |arrived| && waiting <= started
           && |arrived| + |waiting| == |started| <= slots
      && (forall k | 0 <= k < |arrived| :: arrived[k].0 in started && arrived[k].0 !in waiting)
      && forall j, k | 0 <= j < k < |arrived| :: arrived[j].0 != arrived[k].0
    }

    constructor (slots: nat)
      ensures Valid() && this.slots == slots && started == {} && asked == map[] && arrived == [] && taken == 0
    {
      this.slots := slots;
      started, asked, waiting, arrived, taken := {}, map[], {}, [], 0;
    }

    method Start(name: string, group: seq<Receipt>)
      requires Valid() && name !in started && |started| < slots
      modifies this
      ensures Valid() && started == old(started) + {name} && taken == old(taken)
      ensures asked == old(asked)[name := group]
    {
      started := started + {name};
      asked := asked[name := group];
      waiting := waiting + {name};
    }

    /** A waiter starts, and any waiters may answer at once. */
    method Go(name: string, group: seq<Receipt>)
      requires Valid() && name !in started && |started| < slots
      modifies this
      ensures Valid() && started == old(started) + {name} && |started| == old(|started|) + 1 && taken == old(taken)
      ensures asked == old(asked)[name := group]
    {
      Start(name, group);
      Progress();
    }

    /** A waiter answers. The queue always has a free place for it, so sending does not block. */
    method Arrive(name: string, answer: Answer)
      requires Valid() && name in waiting
      modifies this`waiting, this`arrived
      ensures old(|arrived| - taken) < slots
      ensures Valid() && waiting == old(waiting) - {name}
      ensures arrived == old(arrived) + [(name, answer)]
    {
      waiting := waiting - {name};
      arrived := arrived + [(name, answer)];
    }

    /** Any number of running waiters answer, in any order. */
    method Progress()
      requires Valid()
      modifies this`waiting, this`arrived
      ensures Valid() && old(arrived) <= arrived
    {
      var n: nat := *;
      while n > 0 && waiting != {}
        invariant Valid() && old(arrived) <= arrived
      {
        var name :| name in waiting;
        var answer: Answer := *;
        Arrive(name, answer);
        n := n - 1;
      }
    }

    /** The next answer, waiting for one if need be; none when the caller's context is done first. */
    method Receive(interruptible: bool) returns (answer: Option<Answer>)
      requires Valid() && taken < |started|
      modifies this`waiting, this`arrived, this`taken
      ensures Valid() && old(arrived) <= arrived
      ensures answer.None? ==> interruptible && taken == old(taken)
      ensures answer.Some? ==> taken == old(taken) + 1 && answer.value == arrived[taken - 1].1
    {
      Progress();
      var done: bool := *;
      if interruptible && done {
        return None;
      }
      if taken == |arrived| {
        Hurry();
      }
      answer := Some(arrived[taken].1);
      taken := taken + 1;
    }

    /** Some waiter answers. */
    method Hurry()
      requires Valid() && taken == |arrived| < |started|
      modifies this`waiting, this`arrived
      ensures Valid() && old(arrived) <= arrived && taken < |arrived|
    {
      var name :| name in waiting;
      var answer: Answer := *;
      Arrive(name, answer);
    }

    /** Nobody reads any more, and still every waiter that is left gets rid of its answer. */
    method Drain()
      requires Valid()
      modifies this`waiting, this`arrived
      ensures Valid() && waiting == {} && old(arrived) <= arrived
    {
      while waiting != {}
        invariant Valid() && old(arrived) <= arrived
        decreases |waiting|
      {
        var name :| name in waiting;
        var answer: Answer := *;
        Arrive(name, answer);
      }
    }
  }

  // ----- Awaiting -----

  /** The decision on answers read in this order from `expected` waiters; none while it is open. */
  ghost function Decide(read: seq<Answer>, expected: nat): Option<Result<Verdict, AwaitError>> {
    if exists k :: FirstWinner(read, k) then
      var k :| FirstWinner(read, k);
      Some(Ok(read[k].verdict))
    else if |read| < expected then None
    else if forall k | 0 <= k < |read| :: read[k].TimedOut? then Some(Err(Timeout))
    else Some(Err(AllFailed))
  }

  ghost predicate FirstWinner(read: seq<Answer>, k: int) {
    0 <= k < |read| && Winning(read[k]) && forall j | 0 <= j < k :: !Winning(read[j])
  }

  /** The first `n` answers. */
  ghost function Answers(arrived: seq<(string, Answer)>, n: nat): seq<Answer>
    requires n <= |arrived|
  {
    seq(n, k requires 0 <= k < n => arrived[k].1)
  }

  class Dispatcher {
    const channels: map<string, Channel>
    /** The identity resolver: from channel, native ID and raw fields to an actor, or failing. */
    const resolver: (string, string, map<string, string>) -> Option<Actor>

    constructor (channels: map<string, Channel>, resolver: (string, string, map<string, string>) -> Option<Actor>)
      ensures this.channels == channels && this.resolver == resolver
    {
      this.channels, this.resolver := channels, resolver;
    }

    function Normalize(v: Verdict): (n: Verdict)
      ensures n.choice == v.choice && n.channel == v.channel
      ensures v.actor.canonical == "" && resolver(v.channel, "", v.actor.raw).Some? ==>
                n.actor == resolver(v.channel, "", v.actor.raw).value
      ensures v.actor.canonical == "" && resolver(v.channel, "", v.actor.raw).None? ==> n == v
      ensures v.actor.canonical != "" ==> n == v
    {
      if v.actor.canonical != "" then v
      else match resolver(v.channel, v.actor.canonical, v.actor.raw)
           case Some(actor) => v.(actor := actor)
           case None => v
    }

    ghost function Normalized(r: Result<Verdict, AwaitError>): Result<Verdict, AwaitError> {
      match r
      case Ok(v) => Ok(Normalize(v))
      case Err(_) => r
    }

    /** The channels the receipts are on. */
    ghost function Named(receipts: seq<Receipt>): (names: set<string>)
      ensures forall c :: c in names <==> exists r :: r in receipts && r.channel == c
    {
      set r | r in receipts :: r.channel
    }

    /** Those of them that can wait. */
    ghost function Capable(receipts: seq<Receipt>): (names: set<string>)
      ensures forall c :: c in names <==> c in Named(receipts) && c in channels && channels[c].awaits
    {
      Able(Named(receipts))
    }

    ghost function Able(names: set<string>): set<string> {
      set c | c in names && c in channels && channels[c].awaits
    }

    lemma AbleOne(names: set<string>, c: string)
      requires c in channels
      ensures Able(names + {c}) == if channels[c].awaits then Able(names) + {c} else Able(names)
    {
    }

    /**
     * Posts to every target in turn. `router` is the routing decision, none if the router failed;
     * `posted[n]` is what posting to the n-th target gives, should it be tried.
     */
    method Notify(router: Option<seq<Target>>, posted: seq<Option<Receipt>>)
      returns (r: Result<PostResult, NotifyError>)
      requires router.Some? ==> |posted| == |router.value|
      ensures router.None? ==> r == Err(RouterFailed)
      ensures router == Some([]) ==> r == Err(NoTarget)
      ensures router.Some? && router.value != [] ==>
                && r.Ok? && |r.value.receipts| + |r.value.errors| == |router.value|
                && r.value.receipts == Delivered(router.value, posted)
                && (forall c | c in r.value.errors :: Refused(router.value, posted, c))
                && r.value.errors == Undelivered(router.value, posted)
    {
      if router.None? {
        return Err(RouterFailed);
      }
      var targets := router.value;
      if |targets| == 0 {
        return Err(NoTarget);
      }
      var receipts, errors := [], [];
      var i := 0;
      while i < |targets|
        invariant 0 <= i <= |targets| && |receipts| + |errors| == i
        invariant receipts == Delivered(targets[..i], posted[..i])
        invariant errors == Undelivered(targets[..i], posted[..i])
        invariant forall c | c in errors :: Refused(targets, posted, c)
      {
        var t := targets[i];
        assert targets[..i + 1][..i] == targets[..i] && posted[..i + 1][..i] == posted[..i];
        if t.channel !in channels || !channels[t.channel].notifies || posted[i].None? {
          errors := errors + [t.channel];
        } else {
          receipts := receipts + [posted[i].value];
        }
        i := i + 1;
      }
      assert targets[..i] == targets && posted[..i] == posted;
      return Ok(PostResult(receipts, errors));
    }

    predicate Posts(t: Target, posted: Option<Receipt>) {
      t.channel in channels && channels[t.channel].notifies && posted.Some?
    }

    /** Some target on channel `c` could not be posted to. */
    ghost predicate Refused(targets: seq<Target>, posted: seq<Option<Receipt>>, c: string)
      requires |targets| == |posted|
    {
      exists n :: 0 <= n < |targets| && targets[n].channel == c && !Posts(targets[n], posted[n])
    }

    /** The receipts of the targets that can be posted to, in routing order. */
    function Delivered(targets: seq<Target>, posted: seq<Option<Receipt>>): seq<Receipt>
      requires |targets| == |posted|
    {
      if targets == [] then []
      else
        var n := |targets| - 1;
        Delivered(targets[..n], posted[..n]) + if Posts(targets[n], posted[n]) then [posted[n].value] else []
    }

    /** The channels of the others, in routing order. */
    function Undelivered(targets: seq<Target>, posted: seq<Option<Receipt>>): seq<string>
      requires |targets| == |posted|
    {
      if targets == [] then []
      else
        var n := |targets| - 1;
        Undelivered(targets[..n], posted[..n]) + if Posts(targets[n], posted[n]) then [] else [targets[n].channel]
    }

    /** What comes of one target: a receipt if its channel is registered, can post and does, else an error. */
    lemma OneDelivered(t: Target, posting: Option<Receipt>)
      ensures t.channel in channels && channels[t.channel].notifies && posting.Some? ==>
                Delivered([t], [posting]) == [posting.value] && Undelivered([t], [posting]) == []
      ensures t.channel !in channels || !channels[t.channel].notifies || posting.None? ==>
                Delivered([t], [posting]) == [] && Undelivered([t], [posting]) == [t.channel]
    {
      assert [t][..0] == [] && [posting][..0] == [];
    }

    /** Of several targets it is what comes of each, in order. */
    lemma {:induction false} AllDelivered(
      a: seq<Target>, p: seq<Option<Receipt>>, b: seq<Target>, q: seq<Option<Receipt>>)
      requires |a| == |p| && |b| == |q|
      ensures Delivered(a + b, p + q) == Delivered(a, p) + Delivered(b, q)
      ensures Undelivered(a + b, p + q) == Undelivered(a, p) + Undelivered(b, q)
      decreases |b|
    {
      hide Posts;
      if b == [] {
        assert a + b == a && p + q == p;
      } else {
        var n := |b| - 1;
        AllDelivered(a, p, b[..n], q[..n]);
        assert (a + b)[..|a + b| - 1] == a + b[..n] && (p + q)[..|p + q| - 1] == p + q[..n];
      }
    }

    /**
     * `interruptible` says whether the caller's context may end the wait; `alone` is the answer in the
     * single-channel case. `race` is the race that was run otherwise.
     */
    method Await(receipts: seq<Receipt>, interruptible: bool, alone: Answer)
      returns (r: Result<Verdict, AwaitError>, race: Race)
      ensures fresh(race) && race.Valid()
      ensures receipts == [] ==> r == Err(NoReceipts)
      ensures forall c | Named(receipts) == {c} ::
                && (c !in channels ==> r == Err(UnknownChannel(c)))
                && (c in channels && !channels[c].awaits ==> r == Err(NotSupported(c)))
                && (c in channels && channels[c].awaits ==>
                      match alone
                      case Decided(v) => r == Ok(Normalize(v))
                      case TimedOut => r == Err(Timeout)
                      case Broken(text) => r == Err(Adapter(text)))
      ensures |Named(receipts)| > 1 && Named(receipts) <= channels.Keys ==>
                Raced(receipts, r, race, interruptible)
      ensures |Named(receipts)| > 1 && !(Named(receipts) <= channels.Keys) ==>
                r.Err? && r.error.UnknownChannel? && r.error.name in Named(receipts) && r.error.name !in channels
      ensures |Named(receipts)| > 1 && Named(receipts) <= channels.Keys && Capable(receipts) == {} ==>
                r == Err(Timeout)
      ensures r.Ok? && r.value.choice == "" <==>
              |Named(receipts)| == 1 && Capable(receipts) == Named(receipts)
              && alone.Decided? && alone.verdict.choice == ""
    {
      hide Raced, Grouped;
      race := new Race(0);
      if receipts == [] {
        return Err(NoReceipts), race;
      }
      var groups := Group(receipts);
      NamedIs(groups, receipts);
      if |groups| == 1 {
        var name :| name in groups;
        OnlyOne(groups, receipts, name);
        AloneChoice(receipts, name, alone);
        if name !in channels {
          return Err(UnknownChannel(name)), race;
        }
        if !channels[name].awaits {
          return Err(NotSupported(name)), race;
        }
        match alone {
          case Decided(v) => return Ok(Normalize(v)), race;
          case TimedOut => return Err(Timeout), race;
          case Broken(text) => return Err(Adapter(text)), race;
        }
      }
      r, race := RunRace(receipts, groups, interruptible);
    }

    /** The result on a single channel: whatever its waiter answers, an empty choice included. */
    function Alone(c: string, answer: Answer): Result<Verdict, AwaitError> {
      if c !in channels then Err(UnknownChannel(c))
      else if !channels[c].awaits then Err(NotSupported(c))
      else match answer
           case Decided(v) => Ok(Normalize(v))
           case TimedOut => Err(Timeout)
           case Broken(text) => Err(Adapter(text))
    }

    lemma AloneChoice(receipts: seq<Receipt>, c: string, answer: Answer)
      requires Named(receipts) == {c}
      ensures Alone(c, answer).Ok? && Alone(c, answer).value.choice == "" <==>
              Capable(receipts) == {c} && answer.Decided? && answer.verdict.choice == ""
    {
      assert c in Named(receipts);
      assert Capable(receipts) == if c in channels && channels[c].awaits then {c} else {};
    }

    /**
     * The result of racing the channels that can wait: the decision on the answers read, in the order
     * they arrived, or the end of the caller's context while there is none.
     */
    ghost predicate Raced(receipts: seq<Receipt>, r: Result<Verdict, AwaitError>, race: Race, interruptible: bool)
      reads race
    {
      && race.slots == |Named(receipts)| && race.started == Capable(receipts) == race.asked.Keys
      && (forall c | c in race.asked :: race.asked[c] == Of(receipts, c))
      && race.taken <= |race.arrived|
      && var decision := Decide(Answers(race.arrived, race.taken), |Capable(receipts)|);
        if r == Err(ContextDone) then interruptible && decision.None?
        else decision.Some? && r == Normalized(decision.value)
    }

    /**
     * The first answer to arrive with a choice in it is the result, except exactly when it has not been
     * read: then the context ended the wait, although there was a verdict in the queue.
     */
    lemma FirstArrivedWins(
      receipts: seq<Receipt>, r: Result<Verdict, AwaitError>, race: Race, interruptible: bool, k: nat)
      requires race.Valid() && Raced(receipts, r, race, interruptible)
      requires k < |race.arrived| && race.arrived[k].1.Decided? && race.arrived[k].1.verdict.choice != ""
      requires forall j | 0 <= j < k :: race.arrived[j].1.Decided? ==> race.arrived[j].1.verdict.choice == ""
      ensures r == if k < race.taken then Ok(Normalize(race.arrived[k].1.verdict)) else Err(ContextDone)
      ensures race.taken <= k ==> interruptible
    {
      ArrivedFirst(race.arrived, k);
      TellFirst(receipts, r, race, interruptible, k);
    }

    lemma ArrivedFirst(arrived: seq<(string, Answer)>, k: nat)
      requires k < |arrived| && arrived[k].1.Decided? && arrived[k].1.verdict.choice != ""
      requires forall j | 0 <= j < k :: arrived[j].1.Decided? ==> arrived[j].1.verdict.choice == ""
      ensures FirstWinner(Answers(arrived, |arrived|), k)
    {
    }

    lemma TellFirst(
      receipts: seq<Receipt>, r: Result<Verdict, AwaitError>, race: Race, interruptible: bool, k: nat)
      requires race.Valid() && Raced(receipts, r, race, interruptible)
      requires k < |race.arrived| && FirstWinner(Answers(race.arrived, |race.arrived|), k)
      ensures r == if k < race.taken then Ok(Normalize(race.arrived[k].1.verdict)) else Err(ContextDone)
      ensures race.taken <= k ==> interruptible
    {
      hide Decide, FirstWinner;
      assert Answers(race.arrived, race.taken) == Answers(race.arrived, |race.arrived|)[..race.taken];
      FirstWinnerDecides(Answers(race.arrived, |race.arrived|), race.taken, k, |race.started|);
    }

    method RunRace(receipts: seq<Receipt>, groups: map<string, seq<Receipt>>, interruptible: bool)
      returns (r: Result<Verdict, AwaitError>, race: Race)
      requires Grouped(groups, receipts) && groups.Keys == Named(receipts)
      ensures fresh(race) && race.Valid()
      ensures Named(receipts) <= channels.Keys ==> Raced(receipts, r, race, interruptible)
      ensures !(Named(receipts) <= channels.Keys) ==>
                r.Err? && r.error.UnknownChannel? && r.error.name in Named(receipts) && r.error.name !in channels
      ensures Named(receipts) <= channels.Keys && Capable(receipts) == {} ==> r == Err(Timeout)
      ensures r.Ok? ==> r.value.choice != ""
    {
      assert |groups| == |groups.Keys|;
      race := new Race(|groups|);
      var unknown := Launch(groups, race);
      if unknown.Some? {
        return Err(UnknownChannel(unknown.value)), race;
      }
      var expected := Expected(groups);
      r := Judge(race, expected, interruptible);
    }

    lemma NamedIs(groups: map<string, seq<Receipt>>, receipts: seq<Receipt>)
      requires Grouped(groups, receipts)
      ensures groups.Keys == Named(receipts) && |groups| == |Named(receipts)|
      ensures receipts != [] ==> |groups| > 0
    {
      forall c ensures c in groups <==> c in Named(receipts) {
        OfSome(receipts, c);
      }
      assert groups.Keys == Named(receipts);
      if receipts != [] {
        assert receipts[0].channel in groups.Keys;
      }
    }

    lemma OnlyOne(groups: map<string, seq<Receipt>>, receipts: seq<Receipt>, name: string)
      requires groups.Keys == Named(receipts) && |groups| == 1 && name in groups
      ensures Named(receipts) == {name}
    {
      assert |groups.Keys - {name}| == 0;
      assert groups.Keys == {name};
    }

    /** Starts a waiter for every channel that can wait, in any order, stopping at an unregistered one. */
    method Launch(groups: map<string, seq<Receipt>>, race: Race) returns (unknown: Option<string>)
      requires race.Valid() && race.slots == |groups| && race.started == {} && race.asked == map[] && race.taken == 0
      modifies race
      ensures race.Valid() && race.taken == 0
      ensures forall c | c in race.asked :: c in groups && race.asked[c] == groups[c]
      ensures unknown.Some? ==> unknown.value in groups && unknown.value !in channels
      ensures unknown.None? ==> groups.Keys <= channels.Keys
      ensures unknown.None? ==> race.started == Able(groups.Keys)
    {
      hide Able, Race.Valid;
      var rest := groups.Keys;
      AbleNone();
      assert groups.Keys - rest == {};
      while rest != {}
        invariant rest <= groups.Keys && groups.Keys - rest <= channels.Keys
        invariant race.Valid() && race.taken == 0
        invariant |race.started| + |rest| <= |groups|
        invariant forall c | c in race.asked :: c in groups && race.asked[c] == groups[c]
        invariant race.started == Able(groups.Keys - rest)
      {
        var name :| name in rest;
        if name !in channels {
          return Some(name);
        }
        AbleOne(groups.Keys - rest, name);
        AbleWithin(groups.Keys - rest, name);
        assert groups.Keys - (rest - {name}) == groups.Keys - rest + {name};
        if channels[name].awaits {
          race.Go(name, groups[name]);
        }
        rest := rest - {name};
      }
      assert groups.Keys - rest == groups.Keys;
      return None;
    }

    method Expected(groups: map<string, seq<Receipt>>) returns (expected: nat)
      requires groups.Keys <= channels.Keys
      ensures expected == |Able(groups.Keys)|
    {
      hide Able;
      expected := 0;
      var rest := groups.Keys;
      AbleNone();
      assert groups.Keys - rest == {};
      while rest != {}
        invariant rest <= groups.Keys && expected == |Able(groups.Keys - rest)|
      {
        var name :| name in rest;
        AbleOne(groups.Keys - rest, name);
        AbleWithin(groups.Keys - rest, name);
        assert groups.Keys - (rest - {name}) == groups.Keys - rest + {name};
        rest := rest - {name};
        if channels[name].awaits {
          expected := expected + 1;
        }
      }
      assert groups.Keys - rest == groups.Keys;
    }

    lemma AbleNone()
      ensures Able({}) == {}
    {
    }

    lemma AbleWithin(names: set<string>, c: string)
      requires c !in names
      ensures c !in Able(names)
    {
    }

    /** Reads answers until one wins, all are in, or the context is done. */
    method Judge(race: Race, expected: nat, interruptible: bool) returns (r: Result<Verdict, AwaitError>)
      requires race.Valid() && race.taken == 0 && expected == |race.started|
      modifies race`waiting, race`arrived, race`taken
      ensures race.Valid()
      ensures r == Err(ContextDone) ==> interruptible && Decide(Answers(race.arrived, race.taken), expected).None?
      ensures r != Err(ContextDone) ==>
                && Decide(Answers(race.arrived, race.taken), expected).Some?
                && r == Normalized(Decide(Answers(race.arrived, race.taken), expected).value)
      ensures r.Ok? ==> r.value.choice != ""
      ensures expected == 0 ==> r == Err(Timeout)
    {
      hide Decide, Undecided;
      var timeouts := 0;
      var i := 0;
      NothingRead(Answers(race.arrived, 0));
      while i < expected
        invariant 0 <= i <= expected && race.Valid() && timeouts <= i
        invariant race.taken == i
        invariant Undecided(Answers(race.arrived, i), timeouts)
      {
        ghost var before := Answers(race.arrived, i);
        var answer := race.Receive(interruptible);
        if answer.None? {
          assert Answers(race.arrived, i) == before;
          StillOpen(before, timeouts, expected);
          return Err(ContextDone);
        }
        assert Answers(race.arrived, i + 1) == before + [answer.value];
        ReadOne(before, timeouts, answer.value, expected);
        if answer.value.Decided? && answer.value.verdict.choice != "" {
          return Ok(Normalize(answer.value.verdict));
        }
        if answer.value.TimedOut? {
          timeouts := timeouts + 1;
        }
        i := i + 1;
      }
      AllRead(Answers(race.arrived, i), timeouts, expected);
      if timeouts == expected {
        return Err(Timeout);
      }
      return Err(AllFailed);
    }
  }

  ghost function Timeouts(read: seq<Answer>): nat {
    if read == [] then 0 else Timeouts(read[..|read| - 1]) + if read[|read| - 1].TimedOut? then 1 else 0
  }

  /** No winner yet, and this many timeouts. */
  ghost predicate Undecided(read: seq<Answer>, timeouts: nat) {
    (forall k | 0 <= k < |read| :: !Winning(read[k])) && timeouts == Timeouts(read)
  }

  /** What is decided on the first `n` of the answers of which the `k`-th is the first to win. */
  lemma FirstWinnerDecides(all: seq<Answer>, n: nat, k: nat, expected: nat)
    requires FirstWinner(all, k) && n <= |all| <= expected
    ensures Decide(all[..n], expected) == if k < n then Some(Ok(all[k].verdict)) else None
  {
    assert forall j | 0 <= j < n :: all[..n][j] == all[j];
    if k < n {
      assert FirstWinner(all[..n], k);
      assert forall j | FirstWinner(all[..n], j) :: !(j < k) && !(k < j);
    } else {
      assert forall j | 0 <= j < n :: !Winning(all[..n][j]);
    }
  }

  lemma NothingRead(read: seq<Answer>)
    requires read == []
    ensures Undecided(read, 0)
  {
  }

  lemma StillOpen(read: seq<Answer>, timeouts: nat, expected: nat)
    requires Undecided(read, timeouts) && |read| < expected
    ensures Decide(read, expected).None?
  {
  }

  lemma ReadOne(before: seq<Answer>, timeouts: nat, a: Answer, expected: nat)
    requires Undecided(before, timeouts)
    ensures Winning(a) ==> Decide(before + [a], expected) == Some(Ok(a.verdict))
    ensures !Winning(a) ==> Undecided(before + [a], timeouts + if a.TimedOut? then 1 else 0)
  {
    var read, n := before + [a], |before|;
    assert read[..n] == before;
    if Winning(a) {
      assert FirstWinner(read, n);
      forall j | FirstWinner(read, j) ensures j == n {
      }
    }
  }

  lemma AllRead(read: seq<Answer>, timeouts: nat, expected: nat)
    requires Undecided(read, timeouts) && |read| == expected
    ensures Decide(read, expected) == Some(Err(if timeouts == expected then Timeout else AllFailed))
  {
    AllTimedOut(read);
  }

  lemma {:induction false} AllTimedOut(read: seq<Answer>)
    ensures Timeouts(read) <= |read|
    ensures Timeouts(read) == |read| <==> forall k | 0 <= k < |read| :: read[k].TimedOut?
  {
    if read == [] {
    } else {
      AllTimedOut(read[..|read| - 1]);
    }
  }

  /**
   * What the waiters answer decides whether there is a verdict, and whether the failure is a timeout;
   * the order they answer in only decides which verdict it is.
   */
  lemma OrderDecidesOnlyTheWinner(a: seq<Answer>, b: seq<Answer>)
    requires multiset(a) == multiset(b)
    ensures Decide(a, |a|).Some? && Decide(b, |a|).Some?
    ensures Decide(a, |a|).value.Ok? <==> Decide(b, |a|).value.Ok?
    ensures Decide(a, |a|).value.Err? ==> Decide(a, |a|) == Decide(b, |a|)
  {
    assert |multiset(a)| == |a| && |multiset(b)| == |b|;
    SomeWinner(a);
    SomeWinner(b);
    forall x ensures x in a <==> x in b {
      assert x in multiset(a) <==> x in multiset(b);
    }
    assert (forall k | 0 <= k < |a| :: a[k].TimedOut?) <==> forall x | x in a :: x.TimedOut?;
    assert (forall k | 0 <= k < |b| :: b[k].TimedOut?) <==> forall x | x in b :: x.TimedOut?;
  }

  /**
   * All answers in, a timeout is reported exactly when every waiter timed out, a verdict exactly when some
   * waiter had one with a choice in it.
   */
  lemma TimeoutExactly(read: seq<Answer>)
    ensures Decide(read, |read|) == Some(Err(Timeout)) <==> forall a | a in read :: a.TimedOut?
    ensures (exists a :: a in read && a.Decided? && a.verdict.choice != "") <==>
            Decide(read, |read|).Some? && Decide(read, |read|).value.Ok?
    ensures Decide(read, |read|) == Some(Err(AllFailed)) <==>
              && (forall a | a in read && a.Decided? :: a.verdict.choice == "")
              && exists a :: a in read && !a.TimedOut?
  {
    SomeWinner(read);
    assert (forall k | 0 <= k < |read| :: read[k].TimedOut?) <==> forall a | a in read :: a.TimedOut?;
    if exists k :: FirstWinner(read, k) {
      var k :| FirstWinner(read, k);
      assert read[k] in read && !read[k].TimedOut?;
    }
  }

  lemma SomeWinner(read: seq<Answer>)
    ensures (exists a :: a in read && Winning(a)) <==> exists k :: FirstWinner(read, k)
  {
    if a :| a in read && Winning(a) {
      var m :| 0 <= m < |read| && read[m] == a;
      var k := FirstUpTo(read, m);
    }
    if k :| FirstWinner(read, k) {
      assert read[k] in read;
    }
  }

  lemma {:induction false} FirstUpTo(read: seq<Answer>, m: nat) returns (k: nat)
    requires m < |read| && Winning(read[m])
    ensures FirstWinner(read, k)
    decreases m
  {
    if j: nat :| j < m && Winning(read[j]) {
      k := FirstUpTo(read, j);
    } else {
      k := m;
    }
  }
}
