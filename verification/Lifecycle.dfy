/** The life of a free hosting in app/services/expiration_job.py: active, expiring,
    expired, deleted; with parallel workers, crashes and timeouts between any two steps.

    Every status write is unconditional: no worker looks at the status again after the
    query that gave it its hosting. */
module Lifecycle {
  import opened Prelude

  datatype Status = Active | Expiring | Expired | Deleted

  /** docker stop returns a code and the status is written; or the ten seconds run out; or the
      status write after it raises. */
  datatype StopOutcome = Returned(code: int) | TimedOut | WriteRaised(code: int)

  function AfterStop(code: int): Status { if code == 0 then Expired else Active }

  /** _expire_single: true and false are its results, None an exception.  The first status
      write may raise, and so may the event log after the write of "expired". */
  function ExpireOne(st: seq<Status>, h: nat, markRaises: bool, o: StopOutcome, logRaises: bool)
    : (seq<Status>, Option<bool>)
    requires h < |st|
  {
    if markRaises then (st, None)
    else
      match o
      case Returned(code) =>
        (st[h := AfterStop(code)], if code == 0 && logRaises then None else Some(code == 0))
      case _ => (st[h := Expiring], None)
  }

  /** _recover_stale_expiring: the first timeout, or status write that raises, ends the loop. */
  function Recovered(st: seq<Status>, stale: seq<nat>, o: nat -> StopOutcome): (seq<Status>, bool)
    requires forall k :: 0 <= k < |stale| ==> stale[k] < |st|
    decreases |stale|
  {
    if stale == [] then (st, true)
    else
      match o(stale[0])
      case Returned(code) => Recovered(st[stale[0] := AfterStop(code)], stale[1..], o)
      case _ => (st, false)
  }

  class Hostings {
    var status: seq<Status>

    constructor (status: seq<Status>)
      ensures this.status == status
    {
      this.status := status;
    }

    method ExpireSingle(h: nat, markRaises: bool, o: StopOutcome, logRaises: bool) returns (r: Option<bool>)
      requires h < |status|
      modifies this
      ensures (status, r) == ExpireOne(old(status), h, markRaises, o, logRaises)
    {
      if markRaises { return None; }
      status := status[h := Expiring];
      if !o.Returned? { return None; }
      if o.code == 0 {
        status := status[h := Expired];
        assert status == old(status)[h := Expired];
        return if logRaises then None else Some(true);
      }
      status := status[h := Active];
      assert status == old(status)[h := Active];
      return Some(false);
    }

    method RecoverStaleExpiring(stale: seq<nat>, o: nat -> StopOutcome) returns (finished: bool)
      requires forall k :: 0 <= k < |stale| ==> stale[k] < |status|
      modifies this
      ensures (status, finished) == Recovered(old(status), stale, o)
    {
      var k := 0;
      while k < |stale|
        invariant k <= |stale| && |status| == |old(status)|
        invariant Recovered(old(status), stale, o) == Recovered(status, stale[k..], o)
      {
        assert stale[k..][1..] == stale[k + 1..];
        var outcome := o(stale[k]);
        if !outcome.Returned? { return false; }
        if outcome.code == 0 {
          status := status[stale[k] := Expired];
        } else {
          status := status[stale[k] := Active];
        }
        k := k + 1;
      }
      return true;
    }
  }

  /** One expiry: the exit code of docker stop decides, 0 for expired and any other for active;
      a stop that never answers, or a status write that raises behind it, leaves expiring; and
      nobody else's status moves. */
  lemma ExpireExactly(st: seq<Status>, h: nat, markRaises: bool, o: StopOutcome, logRaises: bool)
    requires h < |st|
    ensures var (v, r) := ExpireOne(st, h, markRaises, o, logRaises);
      && |v| == |st| && (forall i :: 0 <= i < |st| && i != h ==> v[i] == st[i])
      && (markRaises ==> v[h] == st[h] && r == None)
      && (!markRaises && o.Returned? && o.code == 0 ==>
            v[h] == Expired && r == if logRaises then None else Some(true))
      && (!markRaises && o.Returned? && o.code != 0 ==> v[h] == Active && r == Some(false))
      && (!markRaises && !o.Returned? ==> v[h] == Expiring && r == None)
  {}

  /** Recovery of one stale hosting: the same exit codes decide. */
  lemma RecoverExactly(st: seq<Status>, h: nat, o: nat -> StopOutcome)
    requires h < |st|
    ensures var (v, finished) := Recovered(st, [h], o);
      && (finished <==> o(h).Returned?)
      && v == if o(h).Returned? then st[h := if o(h).code == 0 then Expired else Active] else st
  {
    assert [h][1..] == [];
  }

  predicate AllReturn(stale: seq<nat>, o: nat -> StopOutcome, n: nat)
    requires n <= |stale|
  {
    forall k :: 0 <= k < n ==> o(stale[k]).Returned?
  }

  lemma AllReturnTail(stale: seq<nat>, o: nat -> StopOutcome, n: nat)
    requires 0 < n <= |stale| && o(stale[0]).Returned?
    ensures AllReturn(stale, o, n) <==> AllReturn(stale[1..], o, n - 1)
  {
    if AllReturn(stale[1..], o, n - 1) {
      forall k | 0 <= k < n ensures o(stale[k]).Returned? { if 0 < k { assert stale[k] == stale[1..][k - 1]; } }
    }
  }

  /** Recovery settles the stale hostings up to the first timeout or failing write, by the exit code of their
      stop, and touches nothing else; the rest wait for the next job. */
  lemma {:induction false} RecoveryReaches(st: seq<Status>, stale: seq<nat>, o: nat -> StopOutcome, h: nat)
    requires (forall k :: 0 <= k < |stale| ==> stale[k] < |st|) && h < |st|
    requires forall k, m :: 0 <= k < m < |stale| ==> stale[k] != stale[m]
    ensures var (v, finished) := Recovered(st, stale, o);
      && |v| == |st| && (finished <==> AllReturn(stale, o, |stale|))
      && (h !in stale ==> v[h] == st[h])
      && forall k :: 0 <= k < |stale| && stale[k] == h ==>
           v[h] == if AllReturn(stale, o, k + 1) then AfterStop(o(h).code) else st[h]
    decreases |stale|
  {
    if stale != [] && o(stale[0]).Returned? {
      var rest := stale[1..];
      var u := st[stale[0] := AfterStop(o(stale[0]).code)];
      RecoveryReaches(u, rest, o, h);
      hide AllReturn, AfterStop;
      AllReturnTail(stale, o, |stale|);
      forall k | 0 <= k < |stale| && stale[k] == h
        ensures Recovered(st, stale, o).0[h] == if AllReturn(stale, o, k + 1) then AfterStop(o(h).code) else st[h]
      {
        AllReturnTail(stale, o, k + 1);
        if 0 < k {
          assert rest[k - 1] == h;
        } else {
          assert h !in rest && AllReturn(rest, o, 0) by { NoneToReturn(rest, o); }
        }
      }
    }
  }

  lemma NoneToReturn(stale: seq<nat>, o: nat -> StopOutcome)
    ensures AllReturn(stale, o, 0)
  {}

  /** One worker and its hosting.  Queued: fetched as active and past its date.  Stopping:
      written as expiring, or found stale in that status; docker stop is under way.
      Stopped: docker stop has returned.  Removing: fetched as expired. */
  datatype Worker = Queued(h: nat) | Stopping(h: nat) | Stopped(h: nat, code: int) | Removing(h: nat)

  datatype Entry = StopReturned(h: nat, code: int) | Wrote(h: nat, status: Status)

  datatype World = World(status: seq<Status>, workers: map<nat, Worker>, log: seq<Entry>)

  datatype Event =
    | FetchDue(p: nat, h: nat)       // get_expiring_free_hostings, date passed
    | FetchStale(p: nat, h: nat)     // get_stale_expiring_hostings
    | FetchExpired(p: nat, h: nat)   // get_expired_hostings
    | Mark(p: nat)                   // writes expiring
    | StopReturns(p: nat, code: int)
    | WriteResult(p: nat)            // writes expired or active
    | WriteDeleted(p: nat)           // after docker rm, whatever it returned
    | Raises(p: nat)                 // a timeout or any other exception ends the worker
    | Crash                          // the process dies

  function Write(w: World, p: nat, h: nat, s: Status, next: Option<Worker>): World
    requires h < |w.status|
  {
    World(w.status[h := s], if next.Some? then w.workers[p := next.value] else w.workers - {p}, w.log + [Wrote(h, s)])
  }

  function Begin(w: World, p: nat, k: Worker): World {
    if p in w.workers then w else w.(workers := w.workers[p := k])
  }

  predicate Has(w: World, h: nat, s: Status) { h < |w.status| && w.status[h] == s }

  function Step(w: World, e: Event): World {
    match e
    case FetchDue(p, h) => if Has(w, h, Active) then Begin(w, p, Queued(h)) else w
    case FetchStale(p, h) => if Has(w, h, Expiring) then Begin(w, p, Stopping(h)) else w
    case FetchExpired(p, h) => if Has(w, h, Expired) then Begin(w, p, Removing(h)) else w
    case Mark(p) =>
      if p in w.workers && w.workers[p].Queued? && w.workers[p].h < |w.status|
      then Write(w, p, w.workers[p].h, Expiring, Some(Stopping(w.workers[p].h))) else w
    case StopReturns(p, code) =>
      if p in w.workers && w.workers[p].Stopping?
      then w.(workers := w.workers[p := Stopped(w.workers[p].h, code)], log := w.log + [StopReturned(w.workers[p].h, code)])
      else w
    case WriteResult(p) =>
      if p in w.workers && w.workers[p].Stopped? && w.workers[p].h < |w.status|
      then Write(w, p, w.workers[p].h, AfterStop(w.workers[p].code), None) else w
    case WriteDeleted(p) =>
      if p in w.workers && w.workers[p].Removing? && w.workers[p].h < |w.status|
      then Write(w, p, w.workers[p].h, Deleted, None) else w
    case Raises(p) => if p in w.workers then w.(workers := w.workers - {p}) else w
    case Crash => w.(workers := map[])
  }

  function Run(w: World, es: seq<Event>): World {
    if es == [] then w else Step(Run(w, es[..|es| - 1]), es[|es| - 1])
  }

  predicate Busy(w: World, h: nat) { exists p :: p in w.workers && w.workers[p].h == h }

  /** One job runs at a time, and a job gives a hosting to one worker at a time. */
  predicate Allowed(w: World, e: Event) {
    match e
    case FetchDue(_, h) => !Busy(w, h)
    case FetchStale(_, h) => !Busy(w, h)
    case FetchExpired(_, h) => !Busy(w, h)
    case _ => true
  }

  predicate AllAllowed(w: World, es: seq<Event>) {
    es == [] || (AllAllowed(w, es[..|es| - 1]) && Allowed(Run(w, es[..|es| - 1]), es[|es| - 1]))
  }

  // ------------------------------------------------------------------- invariant

  /** The last entry about a hosting says that docker stop returned 0. */
  predicate StoppedLast(log: seq<Entry>, n: nat, h: nat)
    requires n <= |log|
  {
    exists k :: 0 <= k < n && log[k] == StopReturned(h, 0) && forall j :: k < j < n ==> log[j].h != h
  }

  predicate WorkerOk(w: World, k: Worker) {
    k.h < |w.status| &&
    match k
    case Queued(h) => w.status[h].Active?
    case Stopping(h) => w.status[h].Expiring?
    case Stopped(h, code) => w.status[h].Expiring? && (code == 0 ==> StoppedLast(w.log, |w.log|, h))
    case Removing(h) => w.status[h].Expired?
  }

  /** Expired is only ever written right after a stop that returned 0. */
  ghost predicate ExpiredAfterStop(log: seq<Entry>) {
    forall n :: 0 <= n < |log| && log[n].Wrote? && log[n].status.Expired? ==> StoppedLast(log, n, log[n].h)
  }

  ghost predicate Inv(w: World) {
    && (forall p :: p in w.workers ==> WorkerOk(w, w.workers[p]))
    && (forall p, q :: p in w.workers && q in w.workers && w.workers[p].h == w.workers[q].h ==> p == q)
    && ExpiredAfterStop(w.log)
  }

  /** The arrows of the life cycle. */
  predicate Move(a: Status, b: Status) {
    || (a.Active? && b.Expiring?)
    || (a.Expiring? && (b.Expired? || b.Active?))
    || (a.Expired? && b.Deleted?)
  }

  lemma StoppedLastGrows(log: seq<Entry>, n: nat, h: nat, e: Entry)
    requires n <= |log| && StoppedLast(log, n, h)
    ensures StoppedLast(log + [e], n, h)
    ensures e.h != h && n == |log| ==> StoppedLast(log + [e], n + 1, h)
  {
    var k :| 0 <= k < n && log[k] == StopReturned(h, 0) && forall j :: k < j < n ==> log[j].h != h;
    assert (log + [e])[k] == log[k];
  }

  /** One entry about hosting h, written by its only worker. */
  lemma LogGrows(w: World, v: World, p: nat, e: Entry)
    requires Inv(w) && p in w.workers && w.workers[p].h == e.h
    requires v.log == w.log + [e] && |v.status| == |w.status|
    requires forall h :: 0 <= h < |w.status| && h != e.h ==> v.status[h] == w.status[h]
    requires forall q :: q in v.workers && q != p ==> q in w.workers && v.workers[q] == w.workers[q]
    requires p in v.workers ==> v.workers[p].h == e.h && WorkerOk(v, v.workers[p])
    requires e.Wrote? && e.status.Expired? ==> StoppedLast(w.log, |w.log|, e.h)
    ensures Inv(v)
  {
    hide StoppedLast;
    forall q | q in v.workers ensures WorkerOk(v, v.workers[q]) {
      if q != p && v.workers[q].Stopped? && v.workers[q].code == 0 {
        StoppedLastGrows(w.log, |w.log|, v.workers[q].h, e);
      }
    }
    forall n | 0 <= n < |v.log| && v.log[n].Wrote? && v.log[n].status.Expired?
      ensures StoppedLast(v.log, n, v.log[n].h)
    {
      StoppedLastGrows(w.log, n, v.log[n].h, e);
    }
  }

  lemma BeginKeepsInv(w: World, p: nat, k: Worker)
    requires Inv(w) && WorkerOk(w, k) && !Busy(w, k.h)
    ensures Inv(Begin(w, p, k))
  {
    hide WorkerOk, ExpiredAfterStop, StoppedLast;
    var v := Begin(w, p, k);
    forall q | q in v.workers ensures WorkerOk(v, v.workers[q]) { SameRows(w, v, v.workers[q]); }
  }

  lemma SameRows(w: World, v: World, k: Worker)
    requires w.status == v.status && w.log == v.log
    ensures WorkerOk(w, k) == WorkerOk(v, k)
  {}

  lemma EndKeepsInv(w: World, v: World)
    requires Inv(w) && v.status == w.status && v.log == w.log
    requires forall q :: q in v.workers ==> q in w.workers && v.workers[q] == w.workers[q]
    ensures Inv(v)
  {
    hide WorkerOk, ExpiredAfterStop, StoppedLast;
    forall q | q in v.workers ensures WorkerOk(v, v.workers[q]) { SameRows(w, v, v.workers[q]); }
  }

  lemma StopKeepsInv(w: World, p: nat, code: int)
    requires Inv(w) && p in w.workers && w.workers[p].Stopping?
    ensures Inv(Step(w, StopReturns(p, code)))
  {
    var v := Step(w, StopReturns(p, code));
    var n := |w.log|;
    assert v.log[n] == StopReturned(w.workers[p].h, code);
    assert code == 0 ==> StoppedLast(v.log, n + 1, w.workers[p].h);
    LogGrows(w, v, p, StopReturned(w.workers[p].h, code));
  }

  lemma WriteKeepsInv(w: World, p: nat, s: Status, next: Option<Worker>)
    requires Inv(w) && p in w.workers
    requires s.Expired? ==> StoppedLast(w.log, |w.log|, w.workers[p].h)
    requires next.Some? ==> next == Some(Stopping(w.workers[p].h)) && s.Expiring?
    ensures Inv(Write(w, p, w.workers[p].h, s, next))
  {
    hide StoppedLast;
    LogGrows(w, Write(w, p, w.workers[p].h, s, next), p, Wrote(w.workers[p].h, s));
  }

  lemma StepKeepsInv(w: World, e: Event)
    requires Inv(w) && Allowed(w, e)
    ensures Inv(Step(w, e))
  {
    hide StoppedLast, ExpiredAfterStop;
    var v := Step(w, e);
    match e
    case FetchDue(p, h) => if v != w { BeginKeepsInv(w, p, Queued(h)); }
    case FetchStale(p, h) => if v != w { BeginKeepsInv(w, p, Stopping(h)); }
    case FetchExpired(p, h) => if v != w { BeginKeepsInv(w, p, Removing(h)); }
    case Mark(p) => if v != w { WriteKeepsInv(w, p, Expiring, Some(Stopping(w.workers[p].h))); }
    case StopReturns(p, code) => if v != w { StopKeepsInv(w, p, code); }
    case WriteResult(p) => if v != w { WriteKeepsInv(w, p, AfterStop(w.workers[p].code), None); }
    case WriteDeleted(p) => if v != w { WriteKeepsInv(w, p, Deleted, None); }
    case Raises(p) => EndKeepsInv(w, v);
    case Crash => EndKeepsInv(w, v);
  }

  lemma StepMoves(w: World, e: Event, h: nat)
    requires Inv(w) && h < |w.status|
    ensures var v := Step(w, e);
      |v.status| == |w.status| && (v.status[h] == w.status[h] || Move(w.status[h], v.status[h]))
  {
    hide StoppedLast, ExpiredAfterStop;
  }

  lemma {:induction false} RunKeepsInv(w: World, es: seq<Event>)
    requires Inv(w) && AllAllowed(w, es)
    ensures Inv(Run(w, es)) && |Run(w, es).status| == |w.status|
  {
    hide Inv, Allowed;
    if es != [] {
      var u := Run(w, es[..|es| - 1]);
      RunKeepsInv(w, es[..|es| - 1]);
      StepKeepsInv(u, es[|es| - 1]);
      if 0 < |u.status| { StepMoves(u, es[|es| - 1], 0); }
    }
  }

  lemma {:induction false} PrefixAllowed(w: World, es: seq<Event>, n: nat)
    requires AllAllowed(w, es) && n <= |es|
    ensures AllAllowed(w, es[..n])
  {
    if n < |es| {
      PrefixAllowed(w, es[..|es| - 1], n);
      assert es[..|es| - 1][..n] == es[..n];
    } else {
      assert es[..n] == es;
    }
  }

  function Fresh(statuses: seq<Status>): World { World(statuses, map[], []) }

  /** Over every schedule of jobs and workers, with a crash or a timeout at any point, each
      single step leaves a hosting where it is or moves it along an arrow of the life
      cycle. */
  lemma OnlyLegalMoves(statuses: seq<Status>, es: seq<Event>, n: nat, h: nat)
    requires AllAllowed(Fresh(statuses), es) && n < |es| && h < |statuses|
    ensures var a, b := Run(Fresh(statuses), es[..n]).status, Run(Fresh(statuses), es[..n + 1]).status;
      |a| == |b| == |statuses| && (b[h] == a[h] || Move(a[h], b[h]))
  {
    hide Inv, AllAllowed, Allowed;
    var w := Fresh(statuses);
    PrefixAllowed(w, es, n);
    assert Inv(w) by { FreshInv(statuses); }
    RunKeepsInv(w, es[..n]);
    assert es[..n + 1][..n] == es[..n];
    StepMoves(Run(w, es[..n]), es[n], h);
  }

  lemma FreshInv(statuses: seq<Status>)
    ensures Inv(Fresh(statuses))
  {}

  /** ... and "expired" is never written unless docker stop returned 0 for that hosting,
      with nothing about it in between. */
  lemma ExpiredMeansStopped(statuses: seq<Status>, es: seq<Event>, n: nat)
    requires AllAllowed(Fresh(statuses), es)
    requires var log := Run(Fresh(statuses), es).log; n < |log| && log[n].Wrote? && log[n].status.Expired?
    ensures var log := Run(Fresh(statuses), es).log; StoppedLast(log, n, log[n].h)
  {
    hide Run, AllAllowed, StoppedLast;
    FreshInv(statuses);
    RunKeepsInv(Fresh(statuses), es);
  }

  /** A deleted hosting stays deleted. */
  lemma {:induction false} DeletedIsFinal(w: World, es: seq<Event>, h: nat)
    requires Inv(w) && AllAllowed(w, es) && h < |w.status| && w.status[h].Deleted?
    ensures |Run(w, es).status| == |w.status| && Run(w, es).status[h].Deleted?
  {
    hide Inv, Allowed;
    if es != [] {
      DeletedIsFinal(w, es[..|es| - 1], h);
      RunKeepsInv(w, es[..|es| - 1]);
      StepMoves(Run(w, es[..|es| - 1]), es[|es| - 1], h);
    }
  }

  /** A worker left alone does what _expire_single does. */
  lemma AloneIsExpireSingle(st: seq<Status>, h: nat, p: nat, markRaises: bool, o: StopOutcome, logRaises: bool)
    requires h < |st| && st[h].Active?
    ensures var u1 := Step(Fresh(st), FetchDue(p, h));
      var u2 := Step(u1, Mark(p));
      var v := if markRaises then Step(u1, Raises(p))
        else match o
          case Returned(code) => Step(Step(u2, StopReturns(p, code)), WriteResult(p))
          case TimedOut => Step(u2, Raises(p))
          case WriteRaised(code) => Step(Step(u2, StopReturns(p, code)), Raises(p));
      v.status == ExpireOne(st, h, markRaises, o, logRaises).0 && v.workers == map[]
  {
    var u1 := Step(Fresh(st), FetchDue(p, h));
    assert u1 == World(st, map[p := Queued(h)], []);
    var u2 := Step(u1, Mark(p));
    assert u2 == World(st[h := Expiring], map[p := Stopping(h)], [Wrote(h, Expiring)]);
    if !o.TimedOut? {
      var u3 := Step(u2, StopReturns(p, o.code));
      assert u3.workers == map[p := Stopped(h, o.code)];
      assert st[h := Expiring][h := AfterStop(o.code)] == st[h := AfterStop(o.code)];
    }
  }

  // ------------------------------------------------------------------- recovery

  /** After a crash the next job finds each hosting stuck in expiring, and its stop decides. */
  lemma CrashIsRecovered(w: World, h: nat, p: nat, code: int)
    requires h < |w.status| && w.status[h].Expiring?
    ensures var u := Step(w, Crash);
      var v := Step(Step(Step(u, FetchStale(p, h)), StopReturns(p, code)), WriteResult(p));
      && u.status == w.status && Allowed(u, FetchStale(p, h))
      && v.workers == map[] && |v.status| == |w.status|
      && v.status[h] == AfterStop(code)
      && forall g :: 0 <= g < |w.status| && g != h ==> v.status[g] == w.status[g]
  {
    var u := Step(w, Crash);
    var u1 := Step(u, FetchStale(p, h));
    assert u1.workers == map[p := Stopping(h)];
    var u2 := Step(u1, StopReturns(p, code));
    assert u2.workers == map[p := Stopped(h, code)];
  }

  /** Two jobs at once: a worker that fetched the hosting while it was active brings it back
      after another job expired and deleted it. */
  lemma OverlapRevivesDeleted()
    ensures var w := Run(Fresh([Active]),
        [FetchDue(0, 0), FetchDue(1, 0), Mark(0), StopReturns(0, 0), WriteResult(0),
         FetchExpired(0, 0), WriteDeleted(0), Mark(1), StopReturns(1, 1), WriteResult(1)]);
      w.status == [Active] && Wrote(0, Deleted) in w.log
  {
    var es := [FetchDue(0, 0), FetchDue(1, 0), Mark(0), StopReturns(0, 0), WriteResult(0),
               FetchExpired(0, 0), WriteDeleted(0), Mark(1), StopReturns(1, 1), WriteResult(1)];
    var w := Fresh([Active]);
    hide Run;
    Prefix(w, es, 0); Prefix(w, es, 1); Prefix(w, es, 2); Prefix(w, es, 3); Prefix(w, es, 4);
    var log := [Wrote(0, Expiring), StopReturned(0, 0), Wrote(0, Expired)];
    FirstExpires(w);
    assert Run(w, es[..5]) == World([Expired], map[1 := Queued(0)], log);
    Prefix(w, es, 5); Prefix(w, es, 6); Prefix(w, es, 7); Prefix(w, es, 8); Prefix(w, es, 9);
    SecondRevives(Run(w, es[..5]));
    assert es[..10] == es;
  }

  lemma FirstExpires(w: World)
    requires w == Fresh([Active])
    ensures var w2 := Step(Step(w, FetchDue(0, 0)), FetchDue(1, 0));
      Step(Step(Step(w2, Mark(0)), StopReturns(0, 0)), WriteResult(0))
        == World([Expired], map[1 := Queued(0)], [Wrote(0, Expiring), StopReturned(0, 0), Wrote(0, Expired)])
  {
    var w2 := Step(Step(w, FetchDue(0, 0)), FetchDue(1, 0));
    assert w2 == World([Active], map[0 := Queued(0), 1 := Queued(0)], []);
    var w3 := Step(w2, Mark(0));
    assert w3 == World([Expiring], map[0 := Stopping(0), 1 := Queued(0)], [Wrote(0, Expiring)]);
    var w4 := Step(w3, StopReturns(0, 0));
    assert w4.workers == map[0 := Stopped(0, 0), 1 := Queued(0)];
  }

  lemma SecondRevives(w: World)
    requires w == World([Expired], map[1 := Queued(0)], [Wrote(0, Expiring), StopReturned(0, 0), Wrote(0, Expired)])
    ensures var w2 := Step(Step(w, FetchExpired(0, 0)), WriteDeleted(0));
      var v := Step(Step(Step(w2, Mark(1)), StopReturns(1, 1)), WriteResult(1));
      v.status == [Active] && Wrote(0, Deleted) in v.log
  {
    var w2 := Step(Step(w, FetchExpired(0, 0)), WriteDeleted(0));
    assert w2.workers == map[1 := Queued(0)] && w2.status == [Deleted] && w2.log[3] == Wrote(0, Deleted);
    var w3 := Step(w2, Mark(1));
    assert w3.workers == map[1 := Stopping(0)] && w3.log[3] == Wrote(0, Deleted);
    var w4 := Step(w3, StopReturns(1, 1));
    assert w4.workers == map[1 := Stopped(0, 1)] && w4.log[3] == Wrote(0, Deleted);
    assert Step(w4, WriteResult(1)).log[3] == Wrote(0, Deleted);
  }

  lemma Prefix(w: World, es: seq<Event>, n: nat)
    requires n < |es|
    ensures Run(w, es[..n + 1]) == Step(Run(w, es[..n]), es[n])
    ensures n == 0 ==> Run(w, es[..0]) == w
  {
    assert es[..n + 1][..n] == es[..n];
  }
}
