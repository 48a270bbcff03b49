/**
 * The in-memory event broker: a machine of plain channels, and the broker that keeps them indexed by
 * workflow. Each broker call is one step.
 */
module Broker {
  import opened Ordering

  datatype Event = Event(workflow: string, body: string)

  type SubId = nat

  /**
   * A subscriber's channel: what it asked for (one workflow or all), the events waiting in its
   * buffer, the events its consumer has taken, and whether its cancel function has been called.
   */
  datatype Channel = Channel(
    scope: Option<string>, capacity: nat, buffer: seq<Event>, taken: seq<Event>, open: bool, cancelled: bool)

  // ----- The machine of channels -----

  datatype State = State(channels: seq<Channel>, published: nat, dropped: nat, closed: bool)

  datatype Op =
    | Publish(event: Event)
    | Subscribe(scope: Option<string>, buffer: int)
    | Cancel(id: SubId)
    | Receive(id: SubId)
    | Close

  const INITIAL := State([], 0, 0, false)

  function Fresh(scope: Option<string>, buffer: int): Channel {
    var capacity := if buffer > 0 then buffer else if scope.None? then 256 else 64;
    Channel(scope, capacity, [], [], true, false)
  }

  predicate Matches(scope: Option<string>, e: Event) {
    scope.None? || scope.value == e.workflow
  }

  predicate Wants(c: Channel, e: Event) {
    c.open && Matches(c.scope, e)
  }

  predicate Full(c: Channel) {
    |c.buffer| >= c.capacity
  }

  /** A non-blocking send: a full buffer loses the event. */
  function Sent(c: Channel, e: Event): Channel {
    if Full(c) then c else c.(buffer := c.buffer + [e])
  }

  function Offered(c: Channel, e: Event): Channel {
    if Wants(c, e) then Sent(c, e) else c
  }

  function AllOffered(channels: seq<Channel>, e: Event): seq<Channel> {
    seq(|channels|, id requires 0 <= id < |channels| => Offered(channels[id], e))
  }

  function AllShut(channels: seq<Channel>): seq<Channel> {
    seq(|channels|, id requires 0 <= id < |channels| => channels[id].(open := false))
  }

  function Taken(c: Channel): Channel {
    if c.buffer == [] then c else c.(buffer := c.buffer[1..], taken := c.taken + [c.buffer[0]])
  }

  /** The channels that want `e` and have no room for it. */
  function Refusing(channels: seq<Channel>, e: Event): set<SubId> {
    set id: SubId | id < |channels| && Wants(channels[id], e) && Full(channels[id])
  }

  /** One call; none is the panic of closing a closed channel. */
  function Step(s: State, op: Op): Option<State> {
    match op
    case Publish(e) =>
      if s.closed then Some(s)
      else Some(s.(channels := AllOffered(s.channels, e),
                   published := s.published + 1,
                   dropped := s.dropped + |Refusing(s.channels, e)|))
    case Subscribe(scope, buffer) => Some(s.(channels := s.channels + [Fresh(scope, buffer)]))
    case Cancel(id) =>
      if id >= |s.channels| || s.channels[id].cancelled then Some(s)
      else if !s.channels[id].open then None
      else Some(s.(channels := s.channels[id := s.channels[id].(open := false, cancelled := true)]))
    case Receive(id) =>
      if id >= |s.channels| then Some(s) else Some(s.(channels := s.channels[id := Taken(s.channels[id])]))
    case Close =>
      if s.closed then Some(s)
      else Some(s.(channels := AllShut(s.channels), closed := true))
  }

  // ----- The broker -----

  /** `ids` are different open channels of the given scope. */
  ghost predicate Lists(channels: seq<Channel>, ids: seq<SubId>, scope: Option<string>) {
    Distinct(ids) && forall id | id in ids :: id < |channels| && channels[id].open && channels[id].scope == scope
  }

  function ListOf(subs: map<string, seq<SubId>>, w: string): seq<SubId> {
    if w in subs then subs[w] else []
  }

  /** The index holds exactly the open channels, each under its own workflow. */
  ghost predicate Indexed(channels: seq<Channel>, subs: map<string, seq<SubId>>, all: seq<SubId>) {
    && (forall w | w in subs :: subs[w] != [] && Lists(channels, subs[w], Some(w)))
    && Lists(channels, all, None)
    && forall id: SubId | id < |channels| && channels[id].open ::
      if channels[id].scope.None? then id in all else id in ListOf(subs, channels[id].scope.value)
  }

  function FullAmong(channels: seq<Channel>, ids: seq<SubId>): set<SubId> {
    set id | id in ids && id < |channels| && Full(channels[id])
  }

  class MemoryBroker {
    var workflowSubs: map<string, seq<SubId>>
    var allSubs: seq<SubId>
    var channels: seq<Channel>
    var published: nat
    var dropped: nat
    var closed: bool

    ghost predicate Valid()
      reads this
    {
      Indexed(channels, workflowSubs, allSubs)
    }

    function Current(): State
      reads this
    {
      State(channels, published, dropped, closed)
    }

    constructor ()
      ensures Valid() && Current() == INITIAL
    {
      workflowSubs, allSubs, channels, published, dropped, closed := map[], [], [], 0, 0, false;
    }

    method Publish(event: Event)
      requires Valid()
      modifies this
      ensures Valid()
      ensures Some(Current()) == Step(old(Current()), Op.Publish(event))
    {
      if closed {
        return;
      }
      published := published + 1;
      var wfSnapshot := ListOf(workflowSubs, event.workflow);
      var allSnapshot := allSubs;
      SnapshotsDisjoint(channels, workflowSubs, allSubs, event.workflow);
      FanOut(wfSnapshot, event);
      ghost var midway := channels;
      FanOut(allSnapshot, event);
      FannedOut(old(channels), midway, channels, workflowSubs, allSubs, event);
    }

    /** Sends on each channel in turn, counting the events lost to full buffers. */
    method FanOut(subs: seq<SubId>, event: Event)
      requires Distinct(subs) && forall id | id in subs :: id < |channels| && channels[id].open
      modifies this`channels, this`dropped
      ensures FannedTo(old(channels), channels, subs, event)
      ensures dropped == old(dropped) + |FullAmong(old(channels), subs)|
    {
      var i := 0;
      assert FullAmong(channels, subs[..0]) == {};
      while i < |subs|
        invariant 0 <= i <= |subs|
        invariant FannedTo(old(channels), channels, subs[..i], event)
        invariant dropped == old(dropped) + |FullAmong(old(channels), subs[..i])|
      {
        assert subs[i] in subs;
        FanStep(old(channels), channels, subs, i, event);
        if |channels[subs[i]].buffer| < channels[subs[i]].capacity {
          Send(subs[i], event);
        } else {
          dropped := dropped + 1;
        }
        i := i + 1;
      }
      assert subs[..i] == subs;
    }

    /** Sending on a closed channel would panic. */
    method Send(id: SubId, event: Event)
      requires id < |channels| && channels[id].open && |channels[id].buffer| < channels[id].capacity
      modifies this`channels
      ensures channels == old(channels)[id := Sent(old(channels)[id], event)]
    {
      channels := channels[id := channels[id].(buffer := channels[id].buffer + [event])];
    }

    method Subscribe(workflowID: string, buffer: int) returns (id: SubId)
      requires Valid()
      modifies this
      ensures Valid() && id == |old(channels)|
      ensures Some(Current()) == Step(old(Current()), Op.Subscribe(Some(workflowID), buffer))
    {
      var size := buffer;
      if size <= 0 {
        size := 64;
      }
      id := |channels|;
      channels := channels + [Channel(Some(workflowID), size, [], [], true, false)];
      workflowSubs := workflowSubs[workflowID := ListOf(workflowSubs, workflowID) + [id]];
      IndexedSubscribe(old(channels), old(workflowSubs), allSubs, workflowID, channels[id]);
    }

    method SubscribeAll(buffer: int) returns (id: SubId)
      requires Valid()
      modifies this
      ensures Valid() && id == |old(channels)|
      ensures Some(Current()) == Step(old(Current()), Op.Subscribe(None, buffer))
    {
      var size := buffer;
      if size <= 0 {
        size := 256;
      }
      id := |channels|;
      channels := channels + [Channel(None, size, [], [], true, false)];
      allSubs := allSubs + [id];
      IndexedSubscribeAll(old(channels), workflowSubs, old(allSubs), channels[id]);
    }

    /** The cancel function handed out with subscription `id`. A panic leaves it used up, and all else as it was. */
    method Cancel(id: SubId) returns (panicked: bool)
      requires Valid() && id < |channels|
      modifies this
      ensures Valid()
      ensures panicked <==> Step(old(Current()), Op.Cancel(id)).None?
      ensures !panicked ==> Some(Current()) == Step(old(Current()), Op.Cancel(id))
      ensures panicked ==>
                Current() == old(Current()).(channels := old(channels)[id := old(channels)[id].(cancelled := true)])
    {
      if channels[id].cancelled {
        return false;
      }
      var c := channels[id];
      if c.scope.None? {
        allSubs := Without(allSubs, id);
      } else {
        var w := c.scope.value;
        var rest := Without(ListOf(workflowSubs, w), id);
        if rest == [] {
          workflowSubs := workflowSubs - {w};
        } else {
          workflowSubs := workflowSubs[w := rest];
        }
      }
      channels := channels[id := c.(open := false, cancelled := true)];
      IndexedCancel(old(channels), old(workflowSubs), old(allSubs), channels, workflowSubs, allSubs, id);
      return !c.open;
    }

    method Close()
      requires Valid()
      modifies this
      ensures Valid()
      ensures Some(Current()) == Step(old(Current()), Op.Close)
    {
      if closed {
        return;
      }
      closed := true;
      var subs := AllRegistered();
      workflowSubs, allSubs := map[], [];
      var i := 0;
      while i < |subs|
        invariant 0 <= i <= |subs|
        invariant ShutAmong(old(channels), channels, subs[..i])
        modifies this`channels
      {
        assert subs[i] in subs;
        ShutStep(old(channels), channels, subs, i);
        channels := channels[subs[i] := channels[subs[i]].(open := false)];
        i := i + 1;
      }
      assert subs[..i] == subs;
      ShutAll(old(channels), channels, subs);
    }

    /** Every registered channel, workflow by workflow in no particular order. */
    method AllRegistered() returns (subs: seq<SubId>)
      requires Valid()
      ensures forall id | id in subs :: id < |channels|
      ensures forall id: SubId | id < |channels| && channels[id].open :: id in subs
    {
      subs := [];
      var rest := workflowSubs.Keys;
      while rest != {}
        invariant rest <= workflowSubs.Keys
        invariant forall id | id in subs :: id < |channels|
        invariant forall w, id | w in workflowSubs && w !in rest && id in workflowSubs[w] :: id in subs
      {
        var w :| w in rest;
        subs := subs + workflowSubs[w];
        rest := rest - {w};
      }
      subs := subs + allSubs;
    }

    /** A consumer takes the next event, if there is one; a closed channel still yields what it holds. */
    method Receive(id: SubId) returns (event: Option<Event>)
      requires Valid() && id < |channels|
      modifies this`channels
      ensures Valid()
      ensures Some(Current()) == Step(old(Current()), Op.Receive(id))
      ensures event == if old(channels)[id].buffer == [] then None else Some(old(channels)[id].buffer[0])
    {
      var c := channels[id];
      if c.buffer == [] {
        assert channels[id := c] == channels;
        return None;
      }
      event := Some(c.buffer[0]);
      channels := channels[id := c.(buffer := c.buffer[1..], taken := c.taken + [c.buffer[0]])];
      IndexedSame(old(channels), channels, workflowSubs, allSubs);
    }

    method Stats() returns (published: nat, dropped: nat)
      ensures published == Current().published && dropped == Current().dropped
    {
      return this.published, this.dropped;
    }
  }

  // ----- Keeping the index -----

  method Without(subs: seq<SubId>, id: SubId) returns (rest: seq<SubId>)
    requires Distinct(subs)
    ensures Distinct(rest)
    ensures forall x :: x in rest <==> x in subs && x != id
  {
    var i := 0;
    while i < |subs|
      invariant 0 <= i <= |subs| && id !in subs[..i]
    {
      if subs[i] == id {
        rest := subs[..i] + subs[i + 1..];
        RemovedAt(subs, i);
        return;
      }
      i := i + 1;
    }
    return subs;
  }

  lemma RemovedAt(subs: seq<SubId>, i: nat)
    requires i < |subs| && Distinct(subs)
    ensures var rest := subs[..i] + subs[i + 1..];
      Distinct(rest) && forall x :: x in rest <==> x in subs && x != subs[i]
  {
    var rest := subs[..i] + subs[i + 1..];
    forall x ensures x in rest <==> x in subs && x != subs[i] {
      if x in subs && x != subs[i] {
        var k :| 0 <= k < |subs| && subs[k] == x;
        assert k < i ==> rest[k] == x;
        assert k > i ==> rest[k - 1] == x;
      }
    }
  }

  /** Every channel keeps its scope and whether it is open. */
  ghost predicate SameStanding(a: seq<Channel>, b: seq<Channel>) {
    |a| == |b| && forall id: SubId | id < |a| :: a[id].open == b[id].open && a[id].scope == b[id].scope
  }

  lemma IndexedSame(a: seq<Channel>, b: seq<Channel>, subs: map<string, seq<SubId>>, all: seq<SubId>)
    requires Indexed(a, subs, all) && SameStanding(a, b)
    ensures Indexed(b, subs, all)
  {
  }

  lemma IndexedSubscribe(channels: seq<Channel>, subs: map<string, seq<SubId>>, all: seq<SubId>, w: string, c: Channel)
    requires Indexed(channels, subs, all) && c.open && c.scope == Some(w)
    ensures Indexed(channels + [c], subs[w := ListOf(subs, w) + [|channels|]], all)
  {
    assert Lists(channels, ListOf(subs, w), Some(w));
    Extended(channels, ListOf(subs, w), Some(w), c);
    forall v | v in subs && v != w ensures Lists(channels + [c], subs[v], Some(v)) {
      assert Lists(channels, subs[v], Some(v));
    }
  }

  lemma IndexedSubscribeAll(channels: seq<Channel>, subs: map<string, seq<SubId>>, all: seq<SubId>, c: Channel)
    requires Indexed(channels, subs, all) && c.open && c.scope == None
    ensures Indexed(channels + [c], subs, all + [|channels|])
  {
    Extended(channels, all, None, c);
    forall v | v in subs ensures Lists(channels + [c], subs[v], Some(v)) {
      assert Lists(channels, subs[v], Some(v));
    }
  }

  lemma Extended(channels: seq<Channel>, ids: seq<SubId>, scope: Option<string>, c: Channel)
    requires Lists(channels, ids, scope) && c.open && c.scope == scope
    ensures Lists(channels + [c], ids + [|channels|], scope)
  {
    forall i | 0 <= i < |ids| ensures ids[i] != |channels| {
      assert ids[i] in ids;
    }
  }

  lemma IndexedCancel(
    channels: seq<Channel>, subs: map<string, seq<SubId>>, all: seq<SubId>,
    channels': seq<Channel>, subs': map<string, seq<SubId>>, all': seq<SubId>, id: SubId)
    requires Indexed(channels, subs, all) && id < |channels|
    requires |channels'| == |channels| && !channels'[id].open && channels' == channels[id := channels'[id]]
    requires Distinct(all') && forall x :: x in all' <==> x in all && x != id
    requires forall w :: Distinct(ListOf(subs', w)) && (w in subs' ==> subs'[w] != [])
    requires forall w, x :: x in ListOf(subs', w) <==> x in ListOf(subs, w) && x != id
    ensures Indexed(channels', subs', all')
  {
    forall w | w in subs' ensures subs'[w] != [] && Lists(channels', subs'[w], Some(w)) {
      assert Distinct(ListOf(subs', w));
      forall x | x in subs'[w] ensures x < |channels'| && channels'[x].open && channels'[x].scope == Some(w) {
        assert x in ListOf(subs', w);
      }
    }
  }

  lemma SnapshotsDisjoint(channels: seq<Channel>, subs: map<string, seq<SubId>>, all: seq<SubId>, w: string)
    requires Indexed(channels, subs, all)
    ensures Lists(channels, ListOf(subs, w), Some(w)) && Lists(channels, all, None)
  {
  }

  // ----- Fanning out -----

  /** Exactly the channels in `subs` were sent the event. */
  ghost predicate FannedTo(before: seq<Channel>, after: seq<Channel>, subs: seq<SubId>, e: Event) {
    && |after| == |before|
    && forall id: SubId | id < |before| :: after[id] == if id in subs then Sent(before[id], e) else before[id]
  }

  lemma FanStep(before: seq<Channel>, now: seq<Channel>, subs: seq<SubId>, i: nat, e: Event)
    requires i < |subs| && Distinct(subs) && subs[i] < |before| && FannedTo(before, now, subs[..i], e)
    ensures now[subs[i]] == before[subs[i]]
    ensures FannedTo(before, now[subs[i] := Sent(before[subs[i]], e)], subs[..i + 1], e)
    ensures |FullAmong(before, subs[..i + 1])|
            == |FullAmong(before, subs[..i])| + if Full(before[subs[i]]) then 1 else 0
  {
    var id := subs[i];
    assert id !in subs[..i];
    assert subs[..i + 1] == subs[..i] + [id];
    var was := FullAmong(before, subs[..i]);
    assert FullAmong(before, subs[..i + 1]) == if Full(before[id]) then was + {id} else was;
  }

  lemma FannedOut(
    before: seq<Channel>, midway: seq<Channel>, after: seq<Channel>, subs: map<string, seq<SubId>>, all: seq<SubId>,
    e: Event)
    requires Indexed(before, subs, all)
    requires FannedTo(before, midway, ListOf(subs, e.workflow), e) && FannedTo(midway, after, all, e)
    ensures Indexed(after, subs, all)
    ensures after == AllOffered(before, e)
    ensures |Refusing(before, e)| == |FullAmong(before, ListOf(subs, e.workflow))| + |FullAmong(midway, all)|
  {
    var listed := ListOf(subs, e.workflow);
    forall id: SubId | id < |before|
      ensures after[id] == Offered(before[id], e)
      ensures Wants(before[id], e) <==> id in listed || id in all
    {
      assert id in listed ==> before[id].scope == Some(e.workflow) && id !in all;
    }
    var one, two := FullAmong(before, listed), FullAmong(midway, all);
    assert Refusing(before, e) == one + two;
    assert one !! two;
    IndexedSame(before, after, subs, all);
  }

  // ----- Closing -----

  ghost predicate ShutAmong(before: seq<Channel>, after: seq<Channel>, subs: seq<SubId>) {
    && |after| == |before|
    && forall id: SubId | id < |before| :: after[id] == if id in subs then before[id].(open := false) else before[id]
  }

  lemma ShutStep(before: seq<Channel>, now: seq<Channel>, subs: seq<SubId>, i: nat)
    requires i < |subs| && subs[i] < |before| && ShutAmong(before, now, subs[..i])
    ensures ShutAmong(before, now[subs[i] := now[subs[i]].(open := false)], subs[..i + 1])
  {
    assert subs[..i + 1] == subs[..i] + [subs[i]];
  }

  lemma ShutAll(before: seq<Channel>, after: seq<Channel>, subs: seq<SubId>)
    requires ShutAmong(before, after, subs) && forall id: SubId | id < |before| && before[id].open :: id in subs
    ensures after == AllShut(before)
  {
    forall id: SubId | id < |before| ensures after[id] == before[id].(open := false) {
      if id !in subs {
        assert before[id].(open := false) == before[id];
      }
    }
  }
}
