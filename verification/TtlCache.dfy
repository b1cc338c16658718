/** The two caches with a lifetime, app/core/ai_cache.py and app/services/fix_memory.py:
    Redis when it works, an in-process dictionary of bounded size otherwise.

    Both are one model with different settings.  Where the dictionary holds several oldest
    entries, which of them goes is a parameter. */
module TtlCache {
  import opened Prelude

  /** `purges`: a full dictionary first drops its expired entries, and the oldest one only
      if there were none (ai_cache); otherwise it drops the oldest at once (fix_memory). */
  datatype Settings = Settings(ttl: int, max: nat, purges: bool)

  const AI_CACHE := Settings(86400, 1000, true)
  const FIX_MEMORY := Settings(3600, 500, false)

  datatype Entry = Entry(value: string, ts: int)

  type Dict = map<string, Entry>

  datatype State = State(memory: Dict, redis: Dict)

  /** What one Redis command does: works, raises, or there is no client at all. */
  datatype Backend = RedisOk | RedisRaises | NoRedis

  predicate Dead(e: Entry, now: int, ttl: int) { now - e.ts > ttl }

  function Live(m: Dict, now: int, ttl: int): Dict { map k | k in m && !Dead(m[k], now, ttl) :: m[k] }

  predicate Oldest(m: Dict, k: string) { k in m && forall j :: j in m ==> m[k].ts <= m[j].ts }

  function Get(s: State, c: Settings, k: string, now: int, b: Backend): (State, Option<string>) {
    if b.RedisOk? then
      (s, if k in s.redis && now - s.redis[k].ts < c.ttl then Some(s.redis[k].value) else None)
    else if k !in s.memory then (s, None)
    else if Dead(s.memory[k], now, c.ttl) then (s.(memory := s.memory - {k}), None)
    else (s, Some(s.memory[k].value))
  }

  /** Making room in a full dictionary. */
  function Room(m: Dict, c: Settings, now: int, victim: string): Dict {
    if |m| < c.max then m
    else if c.purges && Live(m, now, c.ttl) != m then Live(m, now, c.ttl)
    else m - {victim}
  }

  function Save(s: State, c: Settings, k: string, v: string, now: int, b: Backend, victim: string): State {
    if b.RedisOk? then s.(redis := s.redis[k := Entry(v, now)])
    else s.(memory := Room(s.memory, c, now, victim)[k := Entry(v, now)])
  }

  /** delete_proposal: with a Redis client the dictionary is left alone, even if the command
      raises. */
  function Delete(s: State, k: string, b: Backend): State {
    match b
    case RedisOk => s.(redis := s.redis - {k})
    case RedisRaises => s
    case NoRedis => s.(memory := s.memory - {k})
  }

  class Cache {
    const settings: Settings
    var memory: Dict
    var redis: Dict

    function Snapshot(): State
      reads this
    {
      State(memory, redis)
    }

    constructor (settings: Settings)
      ensures this.settings == settings && Snapshot() == State(map[], map[])
    {
      this.settings := settings;
      memory, redis := map[], map[];
    }

    method GetCached(k: string, now: int, b: Backend) returns (r: Option<string>)
      modifies this`memory
      ensures (Snapshot(), r) == Get(old(Snapshot()), settings, k, now, b)
    {
      if b.RedisOk? {
        if k in redis && now - redis[k].ts < settings.ttl { return Some(redis[k].value); }
        return None;
      }
      if k !in memory { return None; }
      if now - memory[k].ts > settings.ttl {
        memory := memory - {k};
        return None;
      }
      return Some(memory[k].value);
    }

    method PurgeExpired(now: int) returns (purged: nat)
      modifies this`memory
      ensures memory == Live(old(memory), now, settings.ttl)
      ensures purged == 0 <==> memory == old(memory)
    {
      var expiredKeys := set k | k in memory && now - memory[k].ts > settings.ttl;
      var todo := expiredKeys;
      purged := 0;
      while todo != {}
        invariant todo <= expiredKeys
        invariant memory == old(memory) - (expiredKeys - todo)
        invariant purged == 0 <==> todo == expiredKeys
        decreases |todo|
      {
        var k :| k in todo;
        memory := memory - {k};
        todo := todo - {k};
        purged := purged + 1;
      }
    }

    method OldestKey() returns (k: string)
      requires memory != map[]
      ensures Oldest(memory, k)
    {
      var todo := memory.Keys;
      k :| k in todo;
      todo := todo - {k};
      while todo != {}
        invariant todo <= memory.Keys && k in memory
        invariant forall j :: j in memory && j !in todo ==> memory[k].ts <= memory[j].ts
        decreases |todo|
      {
        var j :| j in todo;
        if memory[j].ts < memory[k].ts { k := j; }
        todo := todo - {j};
      }
    }

    method SaveTo(k: string, v: string, now: int, b: Backend) returns (ghost victim: string)
      requires 0 < settings.max
      modifies this
      ensures Snapshot() == Save(old(Snapshot()), settings, k, v, now, b, victim)
      ensures !b.RedisOk? && |old(memory)| >= settings.max ==> Oldest(old(memory), victim)
    {
      victim := k;
      if b.RedisOk? {
        redis := redis[k := Entry(v, now)];
        return;
      }
      if |memory| >= settings.max {
        var oldest := OldestKey();
        victim := oldest;
        var purged := 0;
        if settings.purges { purged := PurgeExpired(now); }
        if purged == 0 { memory := memory - {oldest}; }
      }
      memory := memory[k := Entry(v, now)];
    }

    method DeleteProposal(k: string, b: Backend)
      modifies this
      ensures Snapshot() == Delete(old(Snapshot()), k, b)
    {
      if !b.NoRedis? {
        if b.RedisOk? { redis := redis - {k}; }
        return;
      }
      memory := memory - {k};
    }
  }

  // ------------------------------------------------------------------ what is discarded

  /** Saving under another key drops an unexpired entry of the dictionary only when the
      dictionary is full of unexpired entries and this is an oldest one.  Both ways of
      making room have this property. */
  lemma DiscardsOnlyTheOldest(s: State, c: Settings, k: string, v: string, now: int, b: Backend,
                              victim: string, other: string)
    requires !b.RedisOk? && |s.memory| >= c.max ==> Oldest(s.memory, victim)
    requires other in s.memory && !Dead(s.memory[other], now, c.ttl) && other != k
    ensures var m := Save(s, c, k, v, now, b, victim).memory;
      other !in m ==>
        && |s.memory| >= c.max && Oldest(s.memory, other)
        && forall j :: j in s.memory ==> !Dead(s.memory[j], now, c.ttl)
  {
    if c.purges && Live(s.memory, now, c.ttl) == s.memory {
      assert forall j :: j in s.memory ==> j in Live(s.memory, now, c.ttl);
    }
  }

  /** Looking up never drops an unexpired entry. */
  lemma LookingDiscardsOnlyExpired(s: State, c: Settings, k: string, now: int, b: Backend, other: string)
    requires other in s.memory && other !in Get(s, c, k, now, b).0.memory
    ensures other == k && Dead(s.memory[k], now, c.ttl)
  {}

  // ------------------------------------------------------------------------ runs

  datatype Event =
    | GetEvent(k: string, b: Backend)
    | SaveEvent(k: string, v: string, b: Backend, victim: string)
    | DeleteEvent(k: string, b: Backend)
    | Tick(d: nat)

  /** `log`: every save and effective deletion, in order. */
  datatype Note = Saved(k: string, v: string, ts: int, redis: bool) | Dropped(k: string, redis: bool)

  datatype World = World(now: int, s: State, log: seq<Note>)

  const START := World(0, State(map[], map[]), [])

  /** The victim is an oldest entry whenever one is needed. */
  predicate Possible(w: World, c: Settings, e: Event) {
    e.SaveEvent? && !e.b.RedisOk? && |w.s.memory| >= c.max ==> Oldest(w.s.memory, e.victim)
  }

  function Step(w: World, c: Settings, e: Event): World {
    match e
    case GetEvent(k, b) => w.(s := Get(w.s, c, k, w.now, b).0)
    case SaveEvent(k, v, b, victim) =>
      World(w.now, Save(w.s, c, k, v, w.now, b, victim), w.log + [Saved(k, v, w.now, b.RedisOk?)])
    case DeleteEvent(k, b) =>
      World(w.now, Delete(w.s, k, b), if b.RedisRaises? then w.log else w.log + [Dropped(k, b.RedisOk?)])
    case Tick(d) => w.(now := w.now + d)
  }

  function Run(w: World, c: Settings, es: seq<Event>): World
    decreases |es|
  {
    if es == [] then w else Run(Step(w, c, es[0]), c, es[1..])
  }

  predicate AllPossible(w: World, c: Settings, es: seq<Event>)
    decreases |es|
  {
    es == [] || (Possible(w, c, es[0]) && AllPossible(Step(w, c, es[0]), c, es[1..]))
  }

  /** The last word on a key in one store: the plain map the cache stands for. */
  function LastIn(log: seq<Note>, k: string, redis: bool): Option<Entry> {
    if log == [] then None
    else
      var n := log[|log| - 1];
      if n.k != k || n.redis != redis then LastIn(log[..|log| - 1], k, redis)
      else match n case Saved(_, v, ts, _) => Some(Entry(v, ts)) case Dropped(_, _) => None
  }

  ghost predicate Inv(w: World, c: Settings) {
    && |w.s.memory| <= c.max
    && (forall k :: k in w.s.memory ==> LastIn(w.log, k, false) == Some(w.s.memory[k]) && w.s.memory[k].ts <= w.now)
    && (forall k :: k in w.s.redis ==> LastIn(w.log, k, true) == Some(w.s.redis[k]) && w.s.redis[k].ts <= w.now)
  }

  lemma LastSnoc(log: seq<Note>, n: Note, k: string, redis: bool)
    ensures LastIn(log + [n], k, redis) ==
      if n.k != k || n.redis != redis then LastIn(log, k, redis)
      else match n case Saved(_, v, ts, _) => Some(Entry(v, ts)) case Dropped(_, _) => None
  {
    assert (log + [n])[..|log|] == log;
  }

  lemma SmallerMap(a: Dict, b: Dict)
    requires a.Keys <= b.Keys
    ensures |a| <= |b| && (a.Keys != b.Keys ==> |a| < |b|)
  {
    SmallerSet(a.Keys, b.Keys);
  }

  lemma {:induction false} SmallerSet(a: set<string>, b: set<string>)
    requires a <= b
    ensures |a| <= |b| && (a != b ==> |a| < |b|)
  {
    if x :| x in a {
      SmallerSet(a - {x}, b - {x});
      assert a == b <==> a - {x} == b - {x};
    }
  }

  lemma RoomMakesRoom(m: Dict, c: Settings, now: int, victim: string)
    requires 0 < c.max && |m| <= c.max && (|m| >= c.max ==> Oldest(m, victim))
    ensures var r := Room(m, c, now, victim);
      |r| < c.max && forall k :: k in r ==> k in m && r[k] == m[k]
  {
    var r := Room(m, c, now, victim);
    SmallerMap(r, m);
    if |m| >= c.max {
      if c.purges && Live(m, now, c.ttl) != m { assert r.Keys != m.Keys; }
      else { assert victim !in r; }
    }
  }

  lemma PutGrowsByOne(m: Dict, k: string, e: Entry)
    ensures |m[k := e]| <= |m| + 1
  {
    assert m[k := e].Keys == m.Keys + {k};
  }

  lemma StepKeepsInv(w: World, c: Settings, e: Event)
    requires Inv(w, c) && 0 < c.max && Possible(w, c, e)
    ensures Inv(Step(w, c, e), c)
  {
    var v := Step(w, c, e);
    match e
    case GetEvent(k, b) => SmallerMap(v.s.memory, w.s.memory);
    case SaveEvent(k, x, b, victim) => SaveKeepsInv(w, c, k, x, b, victim);
    case DeleteEvent(k, b) =>
      SmallerMap(v.s.memory, w.s.memory);
      forall j, redis | !b.RedisRaises? ensures LastIn(v.log, j, redis) ==
        if j == k && redis == b.RedisOk? then None else LastIn(w.log, j, redis)
      {
        LastSnoc(w.log, Dropped(k, b.RedisOk?), j, redis);
      }
    case Tick(_) =>
  }

  lemma SaveKeepsInv(w: World, c: Settings, k: string, x: string, b: Backend, victim: string)
    requires Inv(w, c) && 0 < c.max && Possible(w, c, SaveEvent(k, x, b, victim))
    ensures Inv(Step(w, c, SaveEvent(k, x, b, victim)), c)
  {
    hide LastIn, Room;
    var v := Step(w, c, SaveEvent(k, x, b, victim));
    var n := Saved(k, x, w.now, b.RedisOk?);
    forall j, redis ensures LastIn(v.log, j, redis) ==
      if j == k && redis == b.RedisOk? then Some(Entry(x, w.now)) else LastIn(w.log, j, redis)
    {
      LastSnoc(w.log, n, j, redis);
    }
    if !b.RedisOk? {
      RoomMakesRoom(w.s.memory, c, w.now, victim);
      PutGrowsByOne(Room(w.s.memory, c, w.now, victim), k, Entry(x, w.now));
    }
  }

  lemma {:induction false} RunKeepsInv(w: World, c: Settings, es: seq<Event>)
    requires Inv(w, c) && 0 < c.max && AllPossible(w, c, es)
    ensures Inv(Run(w, c, es), c)
    decreases |es|
  {
    hide Inv, Step, Possible;
    if es != [] {
      StepKeepsInv(w, c, es[0]);
      RunKeepsInv(Step(w, c, es[0]), c, es[1..]);
    }
  }

  lemma StartInv(c: Settings)
    ensures Inv(START, c)
  {}

  /** After any run: a hit returns the value last saved for the key in the store that
      answers, at most the lifetime old, and the dictionary never exceeds its size. */
  lemma {:induction false} HitIsTheLastSave(c: Settings, es: seq<Event>, k: string, b: Backend)
    requires 0 < c.max && AllPossible(START, c, es)
    ensures var w := Run(START, c, es);
      var hit := Get(w.s, c, k, w.now, b).1;
      var last := LastIn(w.log, k, b.RedisOk?);
      && |w.s.memory| <= c.max
      && (hit.Some? ==> last.Some? && hit.value == last.value.value && 0 <= w.now - last.value.ts <= c.ttl)
  {
    StartInv(c);
    hide Run, AllPossible, LastIn;
    RunKeepsInv(START, c, es);
  }

  /** Position of the last note on a key, and of the last one in one store. */
  function LastAt(log: seq<Note>, k: string): (i: Option<nat>)
    ensures i.Some? ==> i.value < |log| && log[i.value].k == k
    ensures forall j :: 0 <= j < |log| && log[j].k == k ==> i.Some? && j <= i.value
  {
    if log == [] then None
    else if log[|log| - 1].k == k then Some(|log| - 1)
    else LastAt(log[..|log| - 1], k)
  }

  function LastAtIn(log: seq<Note>, k: string, redis: bool): (i: Option<nat>)
    ensures i.Some? ==> i.value < |log| && log[i.value].k == k && log[i.value].redis == redis
    ensures forall j :: 0 <= j < |log| && log[j].k == k && log[j].redis == redis ==> i.Some? && j <= i.value
  {
    if log == [] then None
    else if log[|log| - 1].k == k && log[|log| - 1].redis == redis then Some(|log| - 1)
    else LastAtIn(log[..|log| - 1], k, redis)
  }

  /** The last word of a store is its last note. */
  lemma {:induction false} LastInIsLastNote(log: seq<Note>, k: string, redis: bool)
    ensures LastIn(log, k, redis)
      == match LastAtIn(log, k, redis)
         case None => None
         case Some(i) => match log[i] case Saved(_, v, ts, _) => Some(Entry(v, ts)) case Dropped(_, _) => None
  {
    if log != [] { LastInIsLastNote(log[..|log| - 1], k, redis); }
  }

  /** The last note of a store on a key is the last note on it anywhere exactly when the last
      note was written to that store; so always with one backend throughout. */
  lemma LastWordOfBackend(log: seq<Note>, k: string, redis: bool)
    requires LastAt(log, k).Some?
    ensures LastAtIn(log, k, redis) == LastAt(log, k) <==> log[LastAt(log, k).value].redis == redis
    ensures (forall i :: 0 <= i < |log| ==> log[i].redis == redis) ==> LastAtIn(log, k, redis) == LastAt(log, k)
  {}

  /** After any run, changes of backend included: a hit is the last save to the store that
      answers; it is the last word said on the key anywhere exactly when the last word was
      said to that store. */
  lemma {:induction false} HitIsLatestExactly(c: Settings, es: seq<Event>, k: string, b: Backend)
    requires 0 < c.max && AllPossible(START, c, es)
    requires var w := Run(START, c, es); Get(w.s, c, k, w.now, b).1.Some?
    ensures var w := Run(START, c, es);
      var hit := Get(w.s, c, k, w.now, b).1.value;
      var own, any := LastAtIn(w.log, k, b.RedisOk?), LastAt(w.log, k);
      && own.Some? && any.Some?
      && (exists ts :: w.log[own.value] == Saved(k, hit, ts, b.RedisOk?))
      && (own == any <==> w.log[any.value].redis == b.RedisOk?)
  {
    HitIsTheLastSave(c, es, k, b);
    var w := Run(START, c, es);
    LastInIsLastNote(w.log, k, b.RedisOk?);
    var own := LastAtIn(w.log, k, b.RedisOk?);
    LastWordOfBackend(w.log, k, b.RedisOk?);
    hide Run, Get, LastIn, LastAt, LastAtIn, AllPossible;
    var n := w.log[own.value];
    assert n == Saved(k, n.v, n.ts, b.RedisOk?);
  }

  // ------------------------------------------------------------- below capacity: a plain map

  predicate Uses(e: Event, keys: set<string>) { e.SaveEvent? ==> e.k in keys }

  /** Every save to the dictionary that has not expired is still there. */
  ghost predicate Complete(w: World, c: Settings, keys: set<string>) {
    && w.s.memory.Keys <= keys
    && forall k :: LastIn(w.log, k, false).Some? && !Dead(LastIn(w.log, k, false).value, w.now, c.ttl) ==> k in w.s.memory
  }

  lemma HasRoom(w: World, c: Settings, keys: set<string>)
    requires Complete(w, c, keys) && |keys| < c.max
    ensures |w.s.memory| < c.max
  {
    SmallerSet(w.s.memory.Keys, keys);
    assert |w.s.memory| == |w.s.memory.Keys|;
  }

  lemma SaveKeepsComplete(w: World, c: Settings, k: string, x: string, b: Backend, victim: string, keys: set<string>)
    requires Complete(w, c, keys) && |keys| < c.max && k in keys
    ensures Complete(Step(w, c, SaveEvent(k, x, b, victim)), c, keys)
  {
    hide LastIn;
    HasRoom(w, c, keys);
    var v := Step(w, c, SaveEvent(k, x, b, victim));
    forall j ensures LastIn(v.log, j, false) ==
      if j == k && !b.RedisOk? then Some(Entry(x, w.now)) else LastIn(w.log, j, false)
    {
      LastSnoc(w.log, Saved(k, x, w.now, b.RedisOk?), j, false);
    }
  }

  lemma DeleteKeepsComplete(w: World, c: Settings, k: string, b: Backend, keys: set<string>)
    requires Complete(w, c, keys)
    ensures Complete(Step(w, c, DeleteEvent(k, b)), c, keys)
  {
    hide LastIn;
    var v := Step(w, c, DeleteEvent(k, b));
    forall j | !b.RedisRaises? ensures LastIn(v.log, j, false) ==
      if j == k && !b.RedisOk? then None else LastIn(w.log, j, false)
    {
      LastSnoc(w.log, Dropped(k, b.RedisOk?), j, false);
    }
  }

  lemma StepKeepsComplete(w: World, c: Settings, e: Event, keys: set<string>)
    requires Complete(w, c, keys) && |keys| < c.max && Uses(e, keys) && Inv(w, c)
    ensures Complete(Step(w, c, e), c, keys)
  {
    hide LastIn;
    match e
    case SaveEvent(k, x, b, victim) => SaveKeepsComplete(w, c, k, x, b, victim, keys);
    case DeleteEvent(k, b) => DeleteKeepsComplete(w, c, k, b, keys);
    case _ =>
  }

  lemma {:induction false} RunKeepsComplete(w: World, c: Settings, es: seq<Event>, keys: set<string>)
    requires Complete(w, c, keys) && |keys| < c.max && Inv(w, c)
    requires forall i :: 0 <= i < |es| ==> Uses(es[i], keys)
    ensures Complete(Run(w, c, es), c, keys) && Inv(Run(w, c, es), c)
    decreases |es|
  {
    if es != [] {
      HasRoom(w, c, keys);
      assert Possible(w, c, es[0]);
      hide Inv, Complete, Step, Possible;
      assert Uses(es[0], keys);
      StepKeepsInv(w, c, es[0]);
      StepKeepsComplete(w, c, es[0], keys);
      RunKeepsComplete(Step(w, c, es[0]), c, es[1..], keys);
    }
  }

  /** While fewer keys than the size are ever saved, the dictionary is exactly the plain map
      with a lifetime: a lookup hits if and only if the last save is not too old. */
  lemma {:induction false} ExactBelowCapacity(c: Settings, es: seq<Event>, keys: set<string>, k: string, b: Backend)
    requires |keys| < c.max && !b.RedisOk? && forall i :: 0 <= i < |es| ==> Uses(es[i], keys)
    ensures var w := Run(START, c, es);
      var last := LastIn(w.log, k, false);
      Get(w.s, c, k, w.now, b).1
        == if last.Some? && w.now - last.value.ts <= c.ttl then Some(last.value.value) else None
  {
    StartInv(c);
    assert Complete(START, c, keys);
    hide Run, LastIn;
    RunKeepsComplete(START, c, es, keys);
  }

  // ------------------------------------------------------------------ where it falls short

  /** Redis fails, works and fails again: the lookup returns the first save, not the second. */
  lemma FlipReturnsOlderSave(k: string, v1: string, v2: string)
    requires v1 != v2
    ensures var es := [SaveEvent(k, v1, RedisRaises, k), Tick(1), SaveEvent(k, v2, RedisOk, k)];
      var w := Run(START, AI_CACHE, es);
      && AllPossible(START, AI_CACHE, es)
      && Get(w.s, AI_CACHE, k, w.now, RedisRaises).1 == Some(v1)
      && Get(w.s, AI_CACHE, k, w.now, RedisOk).1 == Some(v2)
      && LastAt(w.log, k) == Some(1) && w.log[1] == Saved(k, v2, 1, true)
  {
    var es := [SaveEvent(k, v1, RedisRaises, k), Tick(1), SaveEvent(k, v2, RedisOk, k)];
    var w1 := World(0, State(map[k := Entry(v1, 0)], map[]), [Saved(k, v1, 0, false)]);
    var w3 := World(1, State(map[k := Entry(v1, 0)], map[k := Entry(v2, 1)]), w1.log + [Saved(k, v2, 1, true)]);
    assert Step(START, AI_CACHE, es[0]) == w1;
    assert Step(Step(w1, AI_CACHE, es[1]), AI_CACHE, es[2]) == w3;
    assert es[1..][1..] == es[2..] && es[2..][1..] == [];
    assert Run(w1, AI_CACHE, es[1..]) == Run(Step(w1, AI_CACHE, es[1]), AI_CACHE, es[2..]) == w3;
    assert Run(START, AI_CACHE, es) == w3;
    assert AllPossible(w1, AI_CACHE, es[1..]) by { assert AllPossible(Step(w1, AI_CACHE, es[1]), AI_CACHE, es[2..]); }
  }

  /** A proposal saved while Redis raised survives its deletion. */
  lemma DeletedProposalReturns(k: string, v: string, b: Backend)
    requires !b.NoRedis?
    ensures var s1 := Save(State(map[], map[]), FIX_MEMORY, k, v, 0, RedisRaises, k);
      Get(Delete(s1, k, b), FIX_MEMORY, k, 1, RedisRaises).1 == Some(v)
  {}

  // ------------------------------------------------------------------ one key, call by call

  /** The settings of the two caches. */
  lemma SettingsExactly()
    ensures AI_CACHE == Settings(24 * 3600, 1000, true) && FIX_MEMORY == Settings(3600, 500, false)
  {}

  /** How long a saved value is there: in Redis for less than the lifetime, in the dictionary
      up to and including it; and saving under one key changes no other in Redis. */
  lemma SavedIsThere(s: State, c: Settings, k: string, v: string, now: int, b: Backend, victim: string,
                     age: nat, a: Backend)
    requires b.RedisOk? == a.RedisOk?
    ensures var u := Save(s, c, k, v, now, b, victim);
      && (a.RedisOk? ==> (Get(u, c, k, now + age, a).1 == if age < c.ttl then Some(v) else None))
      && (!a.RedisOk? ==> (Get(u, c, k, now + age, a).1 == if age <= c.ttl then Some(v) else None))
      && (b.RedisOk? ==>
            u.memory == s.memory && forall j :: j in s.redis && j != k ==> j in u.redis && u.redis[j] == s.redis[j])
      && (!b.RedisOk? ==> u.redis == s.redis)
  {}

  /** What a full dictionary gives up: without the purge its victim, with it every expired
      entry if there is one and else its victim; a dictionary with room gives up nothing. */
  lemma RoomExactly(m: Dict, c: Settings, now: int, victim: string, j: string)
    requires j in m
    ensures var dead := exists i :: i in m && now - m[i].ts > c.ttl;
      j in Room(m, c, now, victim) <==>
        || |m| < c.max
        || (if c.purges && dead then now - m[j].ts <= c.ttl else j != victim)
  {
    if c.purges && (forall i :: i in m ==> now - m[i].ts <= c.ttl) {
      assert Live(m, now, c.ttl) == m;
    }
    if i :| i in m && now - m[i].ts > c.ttl { assert i !in Live(m, now, c.ttl); }
  }

  /** A deleted proposal is gone from the store that was asked, and only it; with a raising
      Redis nothing is gone anywhere. */
  lemma DeletedIsGone(s: State, c: Settings, k: string, now: int, b: Backend, j: string)
    ensures var u := Delete(s, k, b);
      && (b != RedisRaises ==> Get(u, c, k, now, b).1 == None)
      && (b == RedisRaises ==> u == s)
      && (b == RedisOk ==> u.memory == s.memory) && (b == NoRedis ==> u.redis == s.redis)
      && (j != k && j in s.redis ==> j in u.redis && u.redis[j] == s.redis[j])
      && (j != k && j in s.memory ==> j in u.memory && u.memory[j] == s.memory[j])
  {}
}
