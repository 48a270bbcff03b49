/**
 * The two TTL caches, in memory and in a table with whole-second expiry, against what was last set;
 * and memoizing a call through a cache. Times are nanoseconds since the epoch.
 */
module Caches {
  import opened Ordering

  const SECOND := 1_000_000_000

  /** The whole seconds of a time, rounded down. */
  function Unix(t: int): (s: int)
    ensures s * SECOND <= t < s * SECOND + SECOND
  {
    t / SECOND
  }

  datatype Op = Set(key: string, value: string, at: int) | Get(key: string, at: int) | Vacuum(at: int)

  // ----- In memory -----

  datatype Entry = Entry(value: string, expires: int)

  predicate EntryExpired(ttl: int, e: Entry, now: int) {
    ttl > 0 && now > e.expires
  }

  function MemoryAnswer(ttl: int, store: map<string, Entry>, key: string, now: int): Option<string> {
    if key in store && !EntryExpired(ttl, store[key], now) then Some(store[key].value) else None
  }

  function MemoryStep(ttl: int, store: map<string, Entry>, op: Op): map<string, Entry> {
    match op
    case Set(key, value, at) => store[key := Entry(value, if ttl > 0 then at + ttl else 0)]
    case Get(key, at) => if key in store && EntryExpired(ttl, store[key], at) then store - {key} else store
    case Vacuum(_) => store
  }

  class MemoryCache {
    const ttl: int
    var store: map<string, Entry>

    constructor (ttl: int)
      ensures this.ttl == ttl && store == map[]
    {
      this.ttl := ttl;
      store := map[];
    }

    method Get(key: string, now: int) returns (r: Option<string>)
      modifies this
      ensures r == MemoryAnswer(ttl, old(store), key, now)
      ensures store == MemoryStep(ttl, old(store), Op.Get(key, now))
      ensures store == if r.Some? then old(store) else old(store) - {key}
    {
      if key !in store {
        return None;
      }
      var entry := store[key];
      if ttl > 0 && now > entry.expires {
        store := store - {key};
        return None;
      }
      return Some(entry.value);
    }

    method Set(key: string, value: string, now: int)
      modifies this
      ensures store == MemoryStep(ttl, old(store), Op.Set(key, value, now))
    {
      var expires := 0;
      if ttl > 0 {
        expires := now + ttl;
      }
      store := store[key := Entry(value, expires)];
    }
  }

  // ----- In a table -----

  /** `expiresAt` is in whole seconds; 0 means never. */
  datatype Row = Row(value: string, expiresAt: int)

  predicate RowExpired(r: Row, now: int) {
    r.expiresAt != 0 && Unix(now) > r.expiresAt
  }

  function TableAnswer(rows: map<string, Row>, key: string, now: int): Option<string> {
    if key in rows && !RowExpired(rows[key], now) then Some(rows[key].value) else None
  }

  function TableStep(ttl: int, rows: map<string, Row>, op: Op): map<string, Row> {
    match op
    case Set(key, value, at) => rows[key := Row(value, if ttl > 0 then Unix(at + ttl) else 0)]
    case Get(key, at) => if key in rows && RowExpired(rows[key], at) then rows - {key} else rows
    case Vacuum(at) => if ttl <= 0 then rows else map k | k in rows && !RowExpired(rows[k], at) :: rows[k]
  }

  class SQLiteCache {
    const ttl: int
    var rows: map<string, Row>

    constructor (ttl: int)
      ensures this.ttl == ttl && rows == map[]
    {
      this.ttl := ttl;
      rows := map[];
    }

    method Get(key: string, now: int) returns (r: Option<string>)
      modifies this
      ensures r == TableAnswer(old(rows), key, now)
      ensures rows == TableStep(ttl, old(rows), Op.Get(key, now))
      ensures rows == if r.Some? then old(rows) else old(rows) - {key}
    {
      if key !in rows {
        return None;
      }
      var row := rows[key];
      if row.expiresAt != 0 && Unix(now) > row.expiresAt {
        rows := rows - {key};
        return None;
      }
      return Some(row.value);
    }

    method Set(key: string, value: string, now: int)
      modifies this
      ensures rows == TableStep(ttl, old(rows), Op.Set(key, value, now))
    {
      var expiresAt := 0;
      if ttl > 0 {
        expiresAt := Unix(now + ttl);
      }
      rows := rows[key := Row(value, expiresAt)];
    }

    method Vacuum(now: int)
      modifies this
      ensures rows == TableStep(ttl, old(rows), Op.Vacuum(now))
      ensures forall k :: k in rows <==> k in old(rows) && (ttl <= 0 || TableAnswer(old(rows), k, now).Some?)
      ensures forall k | k in rows :: rows[k] == old(rows)[k]
    {
      if ttl <= 0 {
        return;
      }
      rows := map k | k in rows && !(rows[k].expiresAt != 0 && rows[k].expiresAt < Unix(now)) :: rows[k];
    }
  }

  // ----- Runs -----

  function MemoryAfter(ttl: int, ops: seq<Op>): map<string, Entry> {
    if ops == [] then map[] else MemoryStep(ttl, MemoryAfter(ttl, ops[..|ops| - 1]), ops[|ops| - 1])
  }

  function TableAfter(ttl: int, ops: seq<Op>): map<string, Row> {
    if ops == [] then map[] else TableStep(ttl, TableAfter(ttl, ops[..|ops| - 1]), ops[|ops| - 1])
  }

  /** The clock does not go back. */
  ghost predicate InOrder(ops: seq<Op>, now: int) {
    (forall i, j | 0 <= i < j < |ops| :: ops[i].at <= ops[j].at) && forall i | 0 <= i < |ops| :: ops[i].at <= now
  }

  /** What was last set under a key, and when. */
  ghost function LastSet(ops: seq<Op>, key: string): Option<(string, int)> {
    if ops == [] then None
    else match ops[|ops| - 1]
         case Set(k, value, at) => if k == key then Some((value, at)) else LastSet(ops[..|ops| - 1], key)
         case _ => LastSet(ops[..|ops| - 1], key)
  }

  /** The last value set, until its time is over; the reference for both caches. */
  ghost function Kept(last: Option<(string, int)>, over: bool): Option<string> {
    if last.None? || over then None else Some(last.value.0)
  }

  ghost predicate MemoryOver(ttl: int, stored: int, now: int) {
    ttl > 0 && now > stored + ttl
  }

  ghost predicate TableOver(ttl: int, stored: int, now: int) {
    ttl > 0 && Unix(stored + ttl) != 0 && Unix(now) > Unix(stored + ttl)
  }

  /** In any run the memory cache answers the value last set under the key until its time is over. */
  lemma {:induction false} MemoryKeepsLastSet(ttl: int, ops: seq<Op>, key: string, now: int)
    requires InOrder(ops, now)
    ensures var last := LastSet(ops, key);
      MemoryAnswer(ttl, MemoryAfter(ttl, ops), key, now) == Kept(last, last.Some? && MemoryOver(ttl, last.value.1, now))
    ensures key in MemoryAfter(ttl, ops) ==>
              LastSet(ops, key).Some?
              && MemoryAfter(ttl, ops)[key] ==
                   Entry(LastSet(ops, key).value.0, if ttl > 0 then LastSet(ops, key).value.1 + ttl else 0)
  {
    if ops == [] {
    } else {
      MemoryKeepsLastSet(ttl, ops[..|ops| - 1], key, now);
      MemoryKeepsLastSet(ttl, ops[..|ops| - 1], key, ops[|ops| - 1].at);
    }
  }

  /** In any run, sweeps included, so does the table, by the whole second. */
  lemma {:induction false} TableKeepsLastSet(ttl: int, ops: seq<Op>, key: string, now: int)
    requires InOrder(ops, now)
    ensures var last := LastSet(ops, key);
      TableAnswer(TableAfter(ttl, ops), key, now) == Kept(last, last.Some? && TableOver(ttl, last.value.1, now))
    ensures key in TableAfter(ttl, ops) ==>
              LastSet(ops, key).Some?
              && TableAfter(ttl, ops)[key] ==
                   Row(LastSet(ops, key).value.0, if ttl > 0 then Unix(LastSet(ops, key).value.1 + ttl) else 0)
  {
    if ops == [] {
    } else {
      TableKeepsLastSet(ttl, ops[..|ops| - 1], key, now);
      TableKeepsLastSet(ttl, ops[..|ops| - 1], key, ops[|ops| - 1].at);
      UnixGrows(ops[|ops| - 1].at, now);
    }
  }

  lemma UnixGrows(a: int, b: int)
    requires a <= b
    ensures Unix(a) <= Unix(b)
  {
  }

  /** A sweep is invisible to every later `Get`. */
  lemma VacuumInvisible(ttl: int, ops: seq<Op>, swept: int, later: seq<Op>, key: string, now: int)
    requires InOrder(ops + [Vacuum(swept)] + later, now)
    ensures TableAnswer(TableAfter(ttl, ops + [Vacuum(swept)] + later), key, now) ==
        TableAnswer(TableAfter(ttl, ops + later), key, now)
  {
    var all, less := ops + [Vacuum(swept)] + later, ops + later;
    forall i | 0 <= i < |less| ensures less[i] == all[if i < |ops| then i else i + 1] {
    }
    TableKeepsLastSet(ttl, all, key, now);
    TableKeepsLastSet(ttl, less, key, now);
    SweepSetsNothing(ops, swept, later, key);
  }

  lemma {:induction false} SweepSetsNothing(ops: seq<Op>, swept: int, later: seq<Op>, key: string)
    ensures LastSet(ops + [Vacuum(swept)] + later, key) == LastSet(ops + later, key)
  {
    var all, less := ops + [Vacuum(swept)] + later, ops + later;
    if later == [] {
      assert all[..|ops|] == ops && less == ops;
    } else {
      var rest := later[..|later| - 1];
      assert all[..|all| - 1] == ops + [Vacuum(swept)] + rest && less[..|less| - 1] == ops + rest;
      SweepSetsNothing(ops, swept, rest, key);
    }
  }

  /**
   * With a positive TTL, after the same calls: whenever the memory cache hits, the table hits with the
   * same value; and the table hits for less than a second longer, unless the expiry second is 0.
   */
  lemma CachesAgree(ttl: int, ops: seq<Op>, key: string, now: int)
    requires ttl > 0 && InOrder(ops, now)
    ensures var memory, table := MemoryAnswer(ttl, MemoryAfter(ttl, ops), key, now),
        TableAnswer(TableAfter(ttl, ops), key, now);
      && (memory.Some? ==> table == memory)
      && (table.Some? ==> LastSet(ops, key).Some? && table.value == LastSet(ops, key).value.0)
      && (table.Some? && Unix(LastSet(ops, key).value.1 + ttl) != 0 ==> now < LastSet(ops, key).value.1 + ttl + SECOND)
  {
    MemoryKeepsLastSet(ttl, ops, key, now);
    TableKeepsLastSet(ttl, ops, key, now);
    if LastSet(ops, key).Some? {
      var until := LastSet(ops, key).value.1 + ttl;
      if now <= until {
        UnixGrows(now, until);
      }
    }
  }

  /** The one-second bound holds at all times exactly for entries that do not expire in the epoch's first second. */
  lemma BoundExactly(ttl: int, stored: int)
    requires ttl > 0
    ensures (forall now :: now >= stored + ttl + SECOND ==> TableOver(ttl, stored, now)) <==> Unix(stored + ttl) != 0
  {
    var end := stored + ttl + SECOND;
    if Unix(stored + ttl) == 0 {
      assert !TableOver(ttl, stored, end);
    } else {
      forall now | now >= end ensures TableOver(ttl, stored, now) {
        UnixGrows(end, now);
      }
    }
  }

  /** An entry whose expiry second is 0 is answered for ever. */
  lemma {:induction false} NeverExpires(ttl: int, key: string, value: string, at: int, now: int)
    requires ttl > 0 && at <= now
    ensures TableAnswer(TableAfter(ttl, [Set(key, value, at)]), key, now) == Some(value)
            <==> Unix(at + ttl) == 0 || Unix(now) <= Unix(at + ttl)
    ensures Unix(at + ttl) == 0 <==> forall later :: !TableOver(ttl, at, later)
  {
    var ops := [Set(key, value, at)];
    assert ops[..0] == [];
    TableKeepsLastSet(ttl, ops, key, now);
    assert LastSet(ops, key) == Some((value, at));
    BoundExactly(ttl, at);
    var end := at + ttl + SECOND;
    assert Unix(at + ttl) != 0 ==> TableOver(ttl, at, end);
  }

  // ----- Memoizing -----

  predicate NulFree(s: string) {
    '\0' !in s
  }

  /** What is hashed; the hash itself is taken to be free of collisions. */
  function CacheKey(system: string, user: string): string {
    system + ['\0'] + user
  }

  /** One prompt pair is the other with a NUL of the user prompt taken as the separator. */
  ghost predicate Reads(s1: string, u1: string, s2: string, u2: string, w: string) {
    s2 == s1 + ['\0'] + w && u1 == w + ['\0'] + u2
  }

  lemma KeyAt(system: string, user: string)
    ensures CacheKey(system, user)[..|system|] == system && CacheKey(system, user)[|system|] == '\0'
    ensures CacheKey(system, user)[|system| + 1..] == user
  {
  }

  /** Two different pairs share a key exactly when a NUL inside one system prompt is the other's separator. */
  lemma KeysCollideExactly(s1: string, u1: string, s2: string, u2: string)
    requires |s1| <= |s2| && (s1 != s2 || u1 != u2)
    ensures CacheKey(s1, u1) == CacheKey(s2, u2) <==> exists w :: Reads(s1, u1, s2, u2, w)
  {
    var key := CacheKey(s1, u1);
    KeyAt(s1, u1);
    KeyAt(s2, u2);
    if key == CacheKey(s2, u2) {
      assert |s1| < |s2|;
      var w := s2[|s1| + 1..];
      assert s2 == key[..|s2|] && s2[..|s1|] == key[..|s1|] && s2[|s1|] == key[|s1|];
      assert s2 == s1 + ['\0'] + w;
      assert u1 == key[|s1| + 1..] && u2 == key[|s2| + 1..] && key[|s2|] == '\0';
      assert u1 == w + ['\0'] + u2;
      assert Reads(s1, u1, s2, u2, w);
    }
    if w :| Reads(s1, u1, s2, u2, w) {
      assert s1 + ['\0'] + (w + ['\0'] + u2) == s1 + ['\0'] + w + ['\0'] + u2;
    }
  }

  lemma SeparatorInside(s1: string, u1: string, s2: string, u2: string)
    requires CacheKey(s1, u1) == CacheKey(s2, u2)
    ensures |s1| < |s2| ==> '\0' in s2
    ensures |s1| == |s2| ==> s1 == s2 && u1 == u2
  {
    KeyAt(s1, u1);
    KeyAt(s2, u2);
    var key := CacheKey(s1, u1);
    assert |s1| < |s2| ==> s2[|s1|] == key[..|s2|][|s1|] == key[|s1|];
  }

  /** Hence none do while system prompts are free of NUL. */
  lemma KeysDistinct(s1: string, u1: string, s2: string, u2: string)
    requires NulFree(s1) && NulFree(s2) && CacheKey(s1, u1) == CacheKey(s2, u2)
    ensures s1 == s2 && u1 == u2
  {
    SeparatorInside(s1, u1, s2, u2);
    SeparatorInside(s2, u2, s1, u1);
  }

  /** Every pair whose system prompt contains a NUL shares its key with another pair. */
  lemma NulCollides(system: string, user: string)
    requires !NulFree(system)
    ensures exists s, u :: (s != system || u != user) && CacheKey(s, u) == CacheKey(system, user)
  {
    var k :| 0 <= k < |system| && system[k] == '\0';
    var s, w := system[..k], system[k + 1..];
    assert Reads(s, w + ['\0'] + user, system, user, w);
    KeysCollideExactly(s, w + ['\0'] + user, system, user);
  }

  /** A call with one answer per prompt pair, which may also fail; it keeps what it was asked and said. */
  class Inner {
    const answer: (string, string) -> string
    var asked: seq<(string, string, Result<string, string>)>

    constructor (answer: (string, string) -> string)
      ensures this.answer == answer && asked == []
    {
      this.answer := answer;
      asked := [];
    }

    method Call(system: string, user: string) returns (r: Result<string, string>)
      modifies this`asked
      ensures asked == old(asked) + [(system, user, r)]
      ensures r.Ok? ==> r.value == answer(system, user)
    {
      var fails: bool := *;
      r := if fails then Err("failed") else Ok(answer(system, user));
      asked := asked + [(system, user, r)];
    }
  }

  /** Either cache. */
  datatype Cache = InMemory(memory: MemoryCache) | InTable(table: SQLiteCache)

  /** What either cache holds. */
  datatype Contents = MemoryContents(ttl: int, store: map<string, Entry>)
    | TableContents(ttl: int, rows: map<string, Row>)

  ghost function Objects(c: Cache): set<object> {
    match c
    case InMemory(memory) => {memory}
    case InTable(table) => {table}
  }

  ghost function ContentsOf(c: Cache): Contents
    reads Objects(c)
  {
    match c
    case InMemory(memory) => MemoryContents(memory.ttl, memory.store)
    case InTable(table) => TableContents(table.ttl, table.rows)
  }

  ghost function Answer(c: Contents, key: string, now: int): Option<string> {
    match c
    case MemoryContents(ttl, store) => MemoryAnswer(ttl, store, key, now)
    case TableContents(_, rows) => TableAnswer(rows, key, now)
  }

  ghost function Stepped(c: Contents, op: Op): Contents {
    match c
    case MemoryContents(ttl, store) => MemoryContents(ttl, MemoryStep(ttl, store, op))
    case TableContents(ttl, rows) => TableContents(ttl, TableStep(ttl, rows, op))
  }

  /** The values in a cache, expired or not. */
  ghost function Values(c: Contents): map<string, string> {
    match c
    case MemoryContents(_, store) => map k | k in store :: store[k].value
    case TableContents(_, rows) => map k | k in rows :: rows[k].value
  }

  method Lookup(c: Cache, key: string, now: int) returns (r: Option<string>)
    modifies Objects(c)
    ensures r == Answer(old(ContentsOf(c)), key, now) && ContentsOf(c) == Stepped(old(ContentsOf(c)), Op.Get(key, now))
  {
    match c {
      case InMemory(memory) => r := memory.Get(key, now);
      case InTable(table) => r := table.Get(key, now);
    }
  }

  method Store(c: Cache, key: string, value: string, now: int)
    modifies Objects(c)
    ensures ContentsOf(c) == Stepped(old(ContentsOf(c)), Op.Set(key, value, now))
  {
    match c {
      case InMemory(memory) => memory.Set(key, value, now);
      case InTable(table) => table.Set(key, value, now);
    }
  }

  /** Looking up only drops values, and answers one it holds; setting changes one key. */
  lemma StepValues(c: Contents, key: string, value: string, now: int)
    ensures Answer(c, key, now).Some? ==> key in Values(c) && Answer(c, key, now).value == Values(c)[key]
    ensures forall k | k in Values(Stepped(c, Get(key, now))) ::
              k in Values(c) && Values(Stepped(c, Get(key, now)))[k] == Values(c)[k]
    ensures Values(Stepped(c, Set(key, value, now))) == Values(c)[key := value]
  {
  }

  /** Every value is the answer to a pair with that key; in a clean cache, one with a NUL-free system prompt. */
  ghost predicate Faithful(values: map<string, string>, answer: (string, string) -> string, clean: bool) {
    forall key | key in values :: Justified(key, values[key], answer, clean)
  }

  ghost predicate Justified(key: string, value: string, answer: (string, string) -> string, clean: bool) {
    exists system, user :: Answers(key, value, system, user, answer) && (clean ==> NulFree(system))
  }

  ghost predicate Answers(key: string, value: string, system: string, user: string, answer: (string, string) -> string)
  {
    key == CacheKey(system, user) && value == answer(system, user)
  }

  lemma FaithfulAnswer(value: string, answer: (string, string) -> string, system: string, user: string)
    requires Justified(CacheKey(system, user), value, answer, true) && NulFree(system)
    ensures value == answer(system, user)
  {
    var s, u :| Answers(CacheKey(system, user), value, s, u, answer) && NulFree(s);
    KeysDistinct(s, u, system, user);
  }

  /**
   * A memoized call through either cache: a hit asks nobody, a miss asks once and remembers only
   * success. While every system prompt is free of NUL (`clean`), every answer is the inner call's, from
   * an empty cache on. `now` and `later` are the times of the lookup and of the answer.
   */
  method WithCache(cache: Cache, inner: Inner, system: string, user: string, now: int, later: int, ghost clean: bool)
    returns (r: Result<string, string>)
    requires Faithful(Values(ContentsOf(cache)), inner.answer, clean) && (clean ==> NulFree(system))
    modifies Objects(cache), inner
    ensures Faithful(Values(ContentsOf(cache)), inner.answer, clean)
    ensures r.Ok? ==> Justified(CacheKey(system, user), r.value, inner.answer, clean)
    ensures r.Ok? && clean ==> r.value == inner.answer(system, user)
    ensures var key, before := CacheKey(system, user), old(ContentsOf(cache));
      var hit, looked := Answer(before, key, now), Stepped(before, Op.Get(key, now));
      if hit.Some? then r == Ok(hit.value) && inner.asked == old(inner.asked) && ContentsOf(cache) == looked
      else
        && inner.asked == old(inner.asked) + [(system, user, r)]
        && ContentsOf(cache) == if r.Ok? then Stepped(looked, Op.Set(key, r.value, later)) else looked
  {
    hide Answer, Stepped, Values;
    var key := CacheKey(system, user);
    StepValues(ContentsOf(cache), key, "", now);
    var hit := Lookup(cache, key, now);
    if hit.Some? {
      if clean {
        FaithfulAnswer(hit.value, inner.answer, system, user);
      }
      return Ok(hit.value);
    }
    var out := inner.Call(system, user);
    if out.Err? {
      return out;
    }
    assert Answers(key, out.value, system, user, inner.answer);
    StepValues(ContentsOf(cache), key, out.value, later);
    Store(cache, key, out.value, later);
    return Ok(out.value);
  }
}
