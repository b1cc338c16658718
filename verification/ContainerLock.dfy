/** Per-container locks of app/infra/container_locks.py: SET NX with a TTL to enter, a
    DELETE that does not look at the owner to leave.

    The two Redis commands are functions on the key; the lock class runs them, and the
    machine below interleaves them for any number of clients of one container. */
module ContainerLock {
  import opened Prelude

  const LOCK_TTL := 30

  /** A key is its expiry; None when it was never set or deleted. */
  type RedisKey = Option<int>

  predicate Live(key: RedisKey, now: int) { key.Some? && now < key.value }

  /** SET key 1 NX EX ttl: the new key, and whether it was set. */
  function SetNx(key: RedisKey, now: int): (RedisKey, bool) {
    if Live(key, now) then (key, false) else (Some(now + LOCK_TTL), true)
  }

  class Redis {
    var now: int
    var key: RedisKey

    constructor ()
      ensures now == 0 && key == None
    {
      now, key := 0, None;
    }
  }

  /** What the request sees: acquired, HTTP 409, or the exception of a raising SET. */
  datatype Entered = Acquired | Conflict409 | SetRaised

  /** A SET is answered, or raises without effect, or takes effect and its answer is lost. */
  datatype SetReply = Answered | LostBefore | LostAfter

  class Lock {
    const redis: Redis
    var held: bool

    constructor (redis: Redis)
      ensures this.redis == redis && !held
    {
      this.redis := redis;
      held := false;
    }

    predicate Locked()
      reads redis
    {
      Live(redis.key, redis.now)
    }

    method Enter(reply: SetReply) returns (r: Entered)
      modifies this, redis
      ensures redis.now == old(redis.now)
      ensures redis.key == if reply.LostBefore? then old(redis.key) else SetNx(old(redis.key), old(redis.now)).0
      ensures r.SetRaised? <==> !reply.Answered?
      ensures r.Acquired? <==> reply.Answered? && !old(Locked())
      ensures held == (old(held) || r.Acquired?)
      ensures !reply.LostBefore? ==> Locked()
    {
      if reply.LostBefore? { return SetRaised; }
      var (key, isSet) := SetNx(redis.key, redis.now);
      redis.key := key;
      if reply.LostAfter? { return SetRaised; }
      if !isSet { return Conflict409; }
      held := true;
      return Acquired;
    }

    /** A raising DELETE is logged and swallowed. */
    method Exit(deleteRaises: bool)
      modifies this, redis
      ensures redis.now == old(redis.now) && !held
      ensures redis.key == if old(held) && !deleteRaises then None else old(redis.key)
    {
      if held {
        if !deleteRaises { redis.key := None; }
        held := false;
      }
    }
  }

  /** SET NX: it sets the key if and only if no other is there or its thirty seconds are over,
      and the key it sets is there for thirty seconds and no longer. */
  lemma SetHoldsThirtySeconds(key: RedisKey, now: int, later: int)
    requires now <= later
    ensures var (k, isSet) := SetNx(key, now);
      && (isSet <==> key.None? || key.value <= now)
      && (isSet ==> (SetNx(k, later).1 <==> now + 30 <= later))
      && (!isSet ==> k == key)
  {}

  // ---------------------------------------------------------- any interleaving

  /** A hold lasts from its SET to the end of its DELETE.  The client is in the critical
      section while Inside; Leaving is the time its DELETE is under way. */
  datatype Phase = Inside | Leaving | Ended(at: int)

  datatype Hold = Hold(start: int, phase: Phase)

  /** `owner` is the hold whose SET made the current key; Redis itself does not know it,
      and no command looks at it. */
  datatype World = World(now: int, key: RedisKey, owner: Option<nat>, holds: seq<Hold>)

  const START := World(0, None, None, [])

  predicate Over(h: Hold, now: int) {
    h.start + LOCK_TTL <= if h.phase.Ended? then h.phase.at else now
  }

  datatype Event =
    | Tick(d: nat)
    | Acquire
    | AcquireReplyLost      // SET took effect, the client never learned
    | LeaveSection(i: nat)
    | Delete(i: nat)
    | DeleteRaises(i: nat)
    | Crash(i: nat)         // the process dies inside or while leaving

  function EndHold(w: World, i: nat): World
    requires i < |w.holds|
  {
    w.(holds := w.holds[i := w.holds[i].(phase := Ended(w.now))])
  }

  /** An event that is not enabled changes nothing; Acquire then is the 409. */
  function Step(w: World, e: Event): World {
    match e
    case Tick(d) => w.(now := w.now + d)
    case Acquire =>
      var (key, isSet) := SetNx(w.key, w.now);
      if isSet
      then World(w.now, key, Some(|w.holds|), w.holds + [Hold(w.now, Inside)])
      else w
    case AcquireReplyLost =>
      var (key, isSet) := SetNx(w.key, w.now);
      if isSet then w.(key := key, owner := None) else w
    case LeaveSection(i) =>
      if i < |w.holds| && w.holds[i].phase.Inside?
      then w.(holds := w.holds[i := w.holds[i].(phase := Leaving)]) else w
    case Delete(i) =>
      if i < |w.holds| && w.holds[i].phase.Leaving?
      then EndHold(w, i).(key := None, owner := None) else w
    case DeleteRaises(i) =>
      if i < |w.holds| && w.holds[i].phase.Leaving? then EndHold(w, i) else w
    case Crash(i) =>
      if i < |w.holds| && !w.holds[i].phase.Ended? then EndHold(w, i) else w
  }

  function Run(w: World, es: seq<Event>): World
    decreases |es|
  {
    if es == [] then w else Run(Step(w, es[0]), es[1..])
  }

  /** Clients inside the critical section. */
  function Insiders(w: World): set<nat> {
    set i: nat | i < |w.holds| && w.holds[i].phase.Inside?
  }

  /** Holds, ended or not, that outlived the TTL so far. */
  function Overruns(w: World): set<nat> {
    set i: nat | i < |w.holds| && Over(w.holds[i], w.now)
  }

  function LateEnds(w: World): set<nat> {
    set i: nat | i < |w.holds| && w.holds[i].phase.Ended? && Over(w.holds[i], w.now)
  }

  /** Unfinished holds within their TTL that have lost their key. */
  function Orphans(w: World): set<nat> {
    set i: nat | i < |w.holds| && !w.holds[i].phase.Ended? && !Over(w.holds[i], w.now) && w.owner != Some(i)
  }

  ghost predicate Inv(w: World) {
    && |Orphans(w)| <= |LateEnds(w)|
    && (w.owner.Some? ==> w.owner.value < |w.holds| && w.key == Some(w.holds[w.owner.value].start + LOCK_TTL))
    && (w.key.Some? ==> w.key.value <= w.now + LOCK_TTL)
  }

  lemma {:induction false} SubsetSize(a: set<nat>, b: set<nat>)
    requires a <= b
    ensures |a| <= |b|
  {
    if x :| x in a { SubsetSize(a - {x}, b - {x}); }
  }

  function Owned(w: World): set<nat> {
    match w.owner case Some(i) => {i} case None => {}
  }

  /** A deletion takes the key from at most one hold. */
  lemma DeleteShape(w: World, i: nat)
    requires i < |w.holds| && w.holds[i].phase.Leaving?
    ensures var v := Step(w, Delete(i));
      && Orphans(v) <= (Orphans(w) - {i}) + (Owned(w) - {i})
      && LateEnds(v) == LateEnds(w) + if Over(w.holds[i], w.now) then {i} else {}
  {
    var v := Step(w, Delete(i));
    assert v.holds[i].phase.Ended?;
    assert forall j: nat :: j < |w.holds| && j != i ==> v.holds[j] == w.holds[j];
  }

  /** A late deletion is counted; an orphan that deletes stops being one. */
  lemma DeleteCounts(w: World, i: nat)
    requires Inv(w) && i < |w.holds| && w.holds[i].phase.Leaving?
    ensures |Orphans(Step(w, Delete(i)))| <= |LateEnds(Step(w, Delete(i)))|
  {
    var v := Step(w, Delete(i));
    DeleteShape(w, i);
    SubsetSize(Orphans(v), (Orphans(w) - {i}) + (Owned(w) - {i}));
    assert i !in LateEnds(w);
    assert Over(w.holds[i], w.now) || i in Orphans(w) || i in Owned(w);
    hide Orphans, LateEnds, Step;
    assert |Owned(w)| <= 1;
    if !Over(w.holds[i], w.now) && i in Owned(w) {
      assert Owned(w) - {i} == {};
      SubsetSize(Orphans(v), Orphans(w));
    }
  }

  /** Every other event leaves the orphans alone, or ends one. */
  lemma OtherShape(w: World, e: Event)
    requires Inv(w) && !(e.Delete? && Step(w, e) != w)
    ensures var v := Step(w, e); Orphans(v) <= Orphans(w) && LateEnds(w) <= LateEnds(v)
  {}

  lemma StepKeepsInv(w: World, e: Event)
    requires Inv(w)
    ensures Inv(Step(w, e))
  {
    var v := Step(w, e);
    if e.Delete? && v != w {
      DeleteCounts(w, e.i);
    } else {
      OtherShape(w, e);
      SubsetSize(Orphans(v), Orphans(w));
      SubsetSize(LateEnds(w), LateEnds(v));
    }
    hide Orphans, LateEnds;
  }

  lemma {:induction false} RunKeepsInv(w: World, es: seq<Event>)
    requires Inv(w)
    ensures Inv(Run(w, es))
    decreases |es|
  {
    if es != [] {
      StepKeepsInv(w, es[0]);
      RunKeepsInv(Step(w, es[0]), es[1..]);
    }
  }

  /** Any number of clients, any interleaving of acquire, release, crash and clock: at most
      one client inside, plus one for each hold that has outlived the TTL so far. */
  lemma InsidersBounded(es: seq<Event>)
    ensures var w := Run(START, es); |Insiders(w)| <= 1 + |Overruns(w)|
  {
    assert Orphans(START) == {};
    RunKeepsInv(START, es);
    var w := Run(START, es);
    var own := if w.owner.Some? then {w.owner.value} else {};
    SubsetSize(LateEnds(w), Overruns(w));
    assert LateEnds(w) <= Overruns(w);
    SubsetSize(Insiders(w), Orphans(w) + own + (Overruns(w) - LateEnds(w)));
  }

  /** Mutual exclusion as long as every hold so far ended, or still is, within the TTL. */
  lemma MutualExclusion(es: seq<Event>, i: nat, j: nat)
    requires Overruns(Run(START, es)) == {}
    requires i in Insiders(Run(START, es)) && j in Insiders(Run(START, es))
    ensures i == j
  {
    InsidersBounded(es);
    if i != j { SubsetSize({i, j}, Insiders(Run(START, es))); }
  }

  /** Whatever happened, crashes included, one TTL of silence frees the key. */
  lemma FreeWithinOneTtl(es: seq<Event>)
    ensures var w := Step(Run(START, es), Tick(LOCK_TTL));
      !Live(w.key, w.now) && Insiders(Step(w, Acquire)) == Insiders(w) + {|w.holds|}
  {
    assert Orphans(START) == {};
    RunKeepsInv(START, es);
  }

  // -------------------------------------------------------------- the bound is exact

  function Pile(n: nat): seq<Event> {
    if n == 0 then [Acquire] else Pile(n - 1) + [Tick(LOCK_TTL), Acquire]
  }

  lemma {:induction false} RunConcat(w: World, es: seq<Event>, fs: seq<Event>)
    ensures Run(w, es + fs) == Run(Run(w, es), fs)
    decreases |es|
  {
    if es == [] {
      assert es + fs == fs;
    } else {
      assert (es + fs)[1..] == es[1..] + fs;
      RunConcat(Step(w, es[0]), es[1..], fs);
    }
  }

  lemma {:induction false} PileShape(n: nat)
    ensures var w := Run(START, Pile(n));
      && |w.holds| == n + 1 && w.now == n * LOCK_TTL && w.key == Some(w.now + LOCK_TTL)
      && forall i :: 0 <= i <= n ==> w.holds[i] == Hold(i * LOCK_TTL, Inside)
  {
    if n > 0 {
      PileShape(n - 1);
      var w := Run(START, Pile(n - 1));
      var tail := [Tick(LOCK_TTL), Acquire];
      RunConcat(START, Pile(n - 1), tail);
      var u := Step(w, Tick(LOCK_TTL));
      assert tail[1..] == [Acquire] && [Acquire][1..] == [];
      assert Run(w, tail) == Step(u, Acquire);
    }
  }

  function Upto(n: nat): (s: set<nat>)
    ensures |s| == n && forall i: nat :: i in s <==> i < n
  {
    if n == 0 then {} else Upto(n - 1) + {n - 1}
  }

  /** For every n some run has n overruns and n + 1 clients inside at once. */
  lemma BoundIsReached(n: nat)
    ensures var w := Run(START, Pile(n)); |Overruns(w)| == n && |Insiders(w)| == n + 1
  {
    PileShape(n);
    var w := Run(START, Pile(n));
    assert Insiders(w) == Upto(n + 1);
    assert Overruns(w) == Upto(n);
  }

  /** One client overruns; its late DELETE removes another's key, and two clients that are
      both within their TTL are inside together. */
  lemma OneOverrunAdmitsTwo()
    ensures var w := Run(START, [Acquire, Tick(LOCK_TTL), Acquire, LeaveSection(0), Delete(0), Acquire]);
      Insiders(w) == {1, 2} && Overruns(w) == {0}
  {
    var es := [Acquire, Tick(LOCK_TTL), Acquire, LeaveSection(0), Delete(0), Acquire];
    var w3 := World(30, Some(60), Some(1), [Hold(0, Inside), Hold(30, Inside)]);
    var w6 := World(30, Some(60), Some(2), [Hold(0, Ended(30)), Hold(30, Inside), Hold(30, Inside)]);
    assert Step(Step(Step(START, es[0]), es[1]), es[2]) == w3;
    assert Step(Step(Step(w3, es[3]), es[4]), es[5]) == w6;
    Unroll3(START, es);
    Unroll3(w3, es[3..]);
    assert es[3..][3..] == [] && Run(w6, []) == w6;
  }

  lemma Unroll3(w: World, es: seq<Event>)
    requires 3 <= |es|
    ensures Run(w, es) == Run(Step(Step(Step(w, es[0]), es[1]), es[2]), es[3..])
  {
    hide Step;
    assert es[1..][1..] == es[2..] && es[2..][1..] == es[3..];
    assert Run(Step(w, es[0]), es[1..]) == Run(Step(Step(w, es[0]), es[1]), es[2..]);
  }
}
