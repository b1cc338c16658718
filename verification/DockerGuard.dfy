/** The Docker saturation guard of app/api/saturation_guard.py: an in-flight counter in
    Redis, with an in-process one to fall back on. */
module DockerGuard {
  import A = Admission

  /** How Redis answers one command: it works, it raises, or get_redis gave None. */
  datatype Backend = RedisOk | RedisRaises | NoRedis

  datatype Counters = Counters(redis: int, inProcess: int)

  function Get(c: Counters, b: Backend): int { if b.RedisOk? then c.redis else c.inProcess }

  function Incr(c: Counters, b: Backend): Counters {
    if b.RedisOk? then c.(redis := c.redis + 1) else c.(inProcess := c.inProcess + 1)
  }

  function Max(x: int, y: int): int { if x < y then y else x }

  /** A raising DECR is swallowed and nothing is decremented anywhere. */
  function Decr(c: Counters, b: Backend): Counters {
    match b
    case RedisOk => c.(redis := Max(0, c.redis - 1))
    case RedisRaises => c
    case NoRedis => c.(inProcess := Max(0, c.inProcess - 1))
  }

  class Guard {
    var redisKey: int
    var localInflight: int

    function Snapshot(): Counters
      reads this
    {
      Counters(redisKey, localInflight)
    }

    constructor ()
      ensures Snapshot() == Counters(0, 0)
    {
      redisKey, localInflight := 0, 0;
    }

    /** docker_capacity: true is a pass, false the 503. */
    method DockerCapacity(b: Backend, limit: int) returns (pass: bool)
      ensures pass <==> Get(Snapshot(), b) < limit
    {
      var current := localInflight;
      if b.RedisOk? { current := redisKey; }
      return !(current >= limit);
    }

    method IncrInflight(b: Backend) returns (v: int)
      modifies this
      ensures Snapshot() == Incr(old(Snapshot()), b) && v == Get(Snapshot(), b)
    {
      if b.RedisOk? {
        redisKey := redisKey + 1;
        return redisKey;
      }
      localInflight := localInflight + 1;
      return localInflight;
    }

    method DecrInflight(b: Backend)
      modifies this
      ensures Snapshot() == Decr(old(Snapshot()), b)
    {
      if !b.NoRedis? {
        if b.RedisOk? {
          redisKey := redisKey - 1;
          if redisKey < 0 { redisKey := 0; }
        }
        return;
      }
      localInflight := if 0 < localInflight - 1 then localInflight - 1 else 0;
    }
  }

  /** An operation that starts on one backend and ends on another gives back what it took
      exactly when both commands reached the same counter. */
  lemma PairingIsExact(c: Counters, b1: Backend, b2: Backend)
    requires 0 <= c.redis && 0 <= c.inProcess
    ensures Decr(Incr(c, b1), b2) == c <==> if b1.RedisOk? then b2.RedisOk? else b2.NoRedis?
  {}

  /** Each command moves one counter: Redis when it works, else the in-process one; except that
      a raising DECR moves none.  No counter goes below zero. */
  lemma CommandsExactly(c: Counters, b: Backend)
    requires 0 <= c.redis && 0 <= c.inProcess
    ensures var up, down := Incr(c, b), Decr(c, b);
      && up.redis == c.redis + (if b == RedisOk then 1 else 0)
      && up.inProcess == c.inProcess + (if b == RedisOk then 0 else 1)
      && down.redis == (if b == RedisOk && 0 < c.redis then c.redis - 1 else c.redis)
      && down.inProcess == (if b == NoRedis && 0 < c.inProcess then c.inProcess - 1 else c.inProcess)
      && Get(c, b) == if b == RedisOk then c.redis else c.inProcess
  {}

  // ------------------------------------------------------------------------ runs

  /** Requests that passed the check, operations running, operations whose process died
      before its decrement, and operations that ended. */
  datatype World = World(c: Counters, pending: nat, running: nat, crashed: nat, ended: nat)

  const START := World(Counters(0, 0), 0, 0, 0, 0)

  datatype Event = Request | Abandon | Begin | End | CrashOp

  /** Every command of the run sees the same backend. */
  function Step(w: World, limit: int, b: Backend, e: Event): World {
    match e
    case Request => if Get(w.c, b) < limit then w.(pending := w.pending + 1) else w
    case Abandon => if 0 < w.pending then w.(pending := w.pending - 1) else w
    case Begin =>
      if 0 < w.pending
      then w.(c := Incr(w.c, b), pending := w.pending - 1, running := w.running + 1) else w
    case End =>
      if 0 < w.running
      then w.(c := Decr(w.c, b), running := w.running - 1, ended := w.ended + 1) else w
    case CrashOp =>
      if 0 < w.running then w.(running := w.running - 1, crashed := w.crashed + 1) else w
  }

  function Run(w: World, limit: int, b: Backend, es: seq<Event>): World
    decreases |es|
  {
    if es == [] then w else Run(Step(w, limit, b, es[0]), limit, b, es[1..])
  }

  /** What the counter should be. */
  predicate Exact(w: World, b: Backend) {
    Get(w.c, b) == w.running + w.crashed + if b.RedisRaises? then w.ended else 0
  }

  lemma {:induction false} RunExact(w: World, limit: int, b: Backend, es: seq<Event>)
    requires Exact(w, b)
    ensures Exact(Run(w, limit, b, es), b)
    decreases |es|
  {
    if es != [] { RunExact(Step(w, limit, b, es[0]), limit, b, es[1..]); }
  }

  /** With one backend throughout, the counter is the number of running and crashed
      operations after every run, so the clamp at zero never acts; a Redis that keeps
      raising counts every operation for ever. */
  lemma {:induction false} CounterIsExact(limit: int, b: Backend, es: seq<Event>)
    ensures var w := Run(START, limit, b, es);
      && Get(w.c, b) == w.running + w.crashed + (if b.RedisRaises? then w.ended else 0)
      && (0 < w.running ==> 1 <= Get(w.c, b))
      && (0 < w.running && !b.RedisRaises? ==> Get(Decr(w.c, b), b) == Get(w.c, b) - 1)
  {
    RunExact(START, limit, b, es);
  }

  function Abs(w: World): A.Gate { A.Gate(w.running + w.crashed, w.pending) }

  function AbsEvent(w: World, e: Event): A.Event {
    match e
    case Request => A.Admit
    case Abandon => A.Drop
    case Begin => A.Count
    case End => if 0 < w.running then A.Release(1) else A.Skip
    case CrashOp => A.Skip
  }

  function AbsRun(w: World, limit: int, b: Backend, es: seq<Event>): seq<A.Event>
    decreases |es|
  {
    if es == [] then [] else [AbsEvent(w, es[0])] + AbsRun(Step(w, limit, b, es[0]), limit, b, es[1..])
  }

  predicate Narrow(w: World, limit: int, b: Backend, es: seq<Event>, p: nat)
    decreases |es|
  {
    w.pending <= p && (es == [] || Narrow(Step(w, limit, b, es[0]), limit, b, es[1..], p))
  }

  /** The guard is an admission gate. */
  lemma {:induction false} RunRefines(w: World, limit: int, b: Backend, es: seq<Event>, p: nat)
    requires Exact(w, b) && !b.RedisRaises?
    ensures A.Run(Abs(w), limit, AbsRun(w, limit, b, es)) == Abs(Run(w, limit, b, es))
    ensures Narrow(w, limit, b, es, p) ==> A.Narrow(Abs(w), limit, AbsRun(w, limit, b, es), p)
    decreases |es|
  {
    if es != [] {
      var v := Step(w, limit, b, es[0]);
      assert A.Step(Abs(w), limit, AbsEvent(w, es[0])) == Abs(v);
      assert AbsRun(w, limit, b, es)[1..] == AbsRun(v, limit, b, es[1..]);
      RunRefines(v, limit, b, es[1..], p);
    }
  }

  lemma {:induction false} BoundFrom(w: World, limit: int, b: Backend, es: seq<Event>, p: nat)
    requires !b.RedisRaises? && Exact(w, b) && Abs(w) == A.CLOSED && Narrow(w, limit, b, es, p)
    ensures var v := Run(w, limit, b, es);
      v.running + v.crashed + v.pending <= if limit <= 0 then 0 else limit - 1 + p
  {
    hide Run, AbsRun, Narrow, A.Run, A.Narrow, Step;
    RunRefines(w, limit, b, es, p);
    A.AdmissionBound(limit, AbsRun(w, limit, b, es), p);
  }

  lemma StartFacts(b: Backend)
    ensures Exact(START, b) && Abs(START) == A.CLOSED
  {}

  /** With at most p requests between check and increment, running plus crashed plus
      pending operations stay within limit - 1 + p. */
  lemma {:induction false} DockerOpsBounded(limit: int, b: Backend, es: seq<Event>, p: nat)
    requires !b.RedisRaises? && Narrow(START, limit, b, es, p)
    ensures var w := Run(START, limit, b, es);
      w.running + w.crashed + w.pending <= if limit <= 0 then 0 else limit - 1 + p
  {
    StartFacts(b);
    hide *;
    BoundFrom(START, limit, b, es, p);
  }
}
