/** The paid-plan gate in front of throttle, restart and autoscale, and the 60-second user
    cache behind it: app/services/orchestrator.py.

    The orchestrator is one thread; plan changes come from elsewhere at any time.  Reading
    the database, stamping the cache entry and issuing the command are separate moments. */
module PlanGate {
  import opened Prelude

  const CACHE_TTL := 60

  /** What get_user_by_id finds: nobody, a user without a plan, with the plan "free" in any
      case, or with any other text. */
  datatype Record = NoUser | NullPlan | Free | Paid

  /** _is_paid_plan on a record; None.lower() raises and counts as not paid. */
  predicate IsPaid(u: Record) { u.Paid? }

  datatype Change = Change(at: int, user: nat, record: Record)

  /** The record of a user was `u` at some moment of second r. */
  predicate Was(db: seq<Change>, user: nat, r: int, u: Record) {
    exists i :: 0 <= i < |db| && db[i] == Change(db[i].at, user, u) && db[i].at <= r
      && forall j :: i < j < |db| && db[j].user == user ==> r <= db[j].at
  }

  /** The record now: the last change. */
  function Current(db: seq<Change>, user: nat): Record {
    if db == [] then NoUser
    else if db[|db| - 1].user == user then db[|db| - 1].record
    else Current(db[..|db| - 1], user)
  }

  /** A cache entry; `readAt` is when its data was in the database, which the code does not
      store. */
  datatype Entry = Entry(data: Record, ts: int, readAt: int)

  /** time.time() - ts < CACHE_TTL. */
  predicate Fresh(cache: map<nat, Entry>, user: nat, now: int) {
    user in cache && now - cache[user].ts < CACHE_TTL
  }

  class UserCache {
    var entries: map<nat, Entry>

    constructor ()
      ensures entries == map[]
    {
      entries := map[];
    }

    /** `found` is what the database holds at `readAt`, None when the query raises;
        `stampedAt` is the clock when the entry is written.  The result is None for an
        exception. */
    method GetUserCached(user: nat, now: int, found: Option<Record>, readAt: int, stampedAt: int)
      returns (data: Option<Record>)
      modifies this
      ensures Fresh(old(entries), user, now) ==>
        data == Some(old(entries)[user].data) && entries == old(entries)
      ensures !Fresh(old(entries), user, now) ==>
        data == found
        && entries == if found.None? then old(entries) else old(entries)[user := Entry(found.value, stampedAt, readAt)]
    {
      if user in entries && now - entries[user].ts < CACHE_TTL {
        return Some(entries[user].data);
      }
      if found.None? { return None; }
      entries := entries[user := Entry(found.value, stampedAt, readAt)];
      return found;
    }

    /** An exception counts as not paid. */
    method IsPaidPlan(user: nat, now: int, found: Option<Record>, readAt: int, stampedAt: int) returns (paid: bool)
      modifies this
      ensures paid <==>
        if Fresh(old(entries), user, now) then IsPaid(old(entries)[user].data) else found.Some? && IsPaid(found.value)
    {
      var u := GetUserCached(user, now, found, readAt, stampedAt);
      if u.None? || u.value.NoUser? || u.value.NullPlan? { return false; }
      return !u.value.Free?;
    }
  }

  // ------------------------------------------------------------------ the machine

  /** Where the thread is: between calls; with a record read and not cached yet; or past
      the gate at `c`, on data read at `r` and stamped at `w`. */
  datatype Phase = Idle | Reading(user: nat, data: Record, r: int) | Cleared(user: nat, r: int, w: int, c: int)

  /** A command issued at t. */
  datatype Command = Command(user: nat, r: int, w: int, c: int, t: int)

  datatype World = World(now: int, db: seq<Change>, cache: map<nat, Entry>, phase: Phase, issued: seq<Command>)

  datatype Event =
    | Tick(d: nat)
    | ChangePlan(user: nat, record: Record)
    | Look(user: nat)        // a call reaches _get_user_cached
    | Fill                   // the read data is stamped, cached and judged
    | ReadFails
    | Issue                  // docker update or restart
    | Skip                   // cleared, but nothing is issued

  function Judge(w: World, user: nat, e: Entry): World {
    w.(phase := if IsPaid(e.data) then Cleared(user, e.readAt, e.ts, w.now) else Idle)
  }

  function Step(w: World, e: Event): World {
    match e
    case Tick(d) => w.(now := w.now + d)
    case ChangePlan(user, record) => w.(db := w.db + [Change(w.now, user, record)])
    case Look(user) =>
      if !w.phase.Idle? then w
      else if Fresh(w.cache, user, w.now) then Judge(w, user, w.cache[user])
      else w.(phase := Reading(user, Current(w.db, user), w.now))
    case Fill =>
      if !w.phase.Reading? then w
      else
        var entry := Entry(w.phase.data, w.now, w.phase.r);
        Judge(w.(cache := w.cache[w.phase.user := entry]), w.phase.user, entry)
    case ReadFails => if w.phase.Reading? then w.(phase := Idle) else w
    case Issue =>
      if !w.phase.Cleared? then w
      else w.(phase := Idle, issued := w.issued + [Command(w.phase.user, w.phase.r, w.phase.w, w.phase.c, w.now)])
    case Skip => if w.phase.Cleared? then w.(phase := Idle) else w
  }

  function Run(w: World, es: seq<Event>): World
    decreases |es|
  {
    if es == [] then w else Run(Step(w, es[0]), es[1..])
  }

  /** No record at all until the first change. */
  predicate Seen(db: seq<Change>, user: nat, r: int, u: Record) { u.NoUser? || Was(db, user, r, u) }

  predicate Backed(w: World, c: Command) {
    Was(w.db, c.user, c.r, Paid) && c.r <= c.w <= c.c <= c.t <= w.now && c.c - c.w < CACHE_TTL
  }

  ghost predicate Inv(w: World) {
    && (forall i :: 0 <= i < |w.db| ==> w.db[i].at <= w.now)
    && (forall u :: u in w.cache ==>
          Seen(w.db, u, w.cache[u].readAt, w.cache[u].data) && w.cache[u].readAt <= w.cache[u].ts <= w.now)
    && (w.phase.Reading? ==> Seen(w.db, w.phase.user, w.phase.r, w.phase.data) && w.phase.r <= w.now)
    && (w.phase.Cleared? ==> Backed(w, Command(w.phase.user, w.phase.r, w.phase.w, w.phase.c, w.now)))
    && (forall k :: 0 <= k < |w.issued| ==> Backed(w, w.issued[k]))
  }

  lemma {:induction false} CurrentSeen(db: seq<Change>, user: nat, now: int)
    requires forall i :: 0 <= i < |db| ==> db[i].at <= now
    ensures Seen(db, user, now, Current(db, user))
  {
    if db != [] {
      var n := |db| - 1;
      if db[n].user != user {
        CurrentSeen(db[..n], user, now);
        var u := Current(db, user);
        if !u.NoUser? {
          var i :| 0 <= i < n && db[..n][i] == Change(db[..n][i].at, user, u) && db[..n][i].at <= now
            && forall j :: i < j < n && db[..n][j].user == user ==> now <= db[..n][j].at;
          assert db[i] == db[..n][i];
          forall j | i < j < |db| && db[j].user == user ensures now <= db[j].at { assert db[j] == db[..n][j]; }
        }
      } else {
        assert db[n] == Change(db[n].at, user, db[n].record);
      }
    }
  }

  /** A change at a later time does not touch what was. */
  lemma WasStays(db: seq<Change>, user: nat, r: int, u: Record, c: Change)
    requires Was(db, user, r, u) && r <= c.at
    ensures Was(db + [c], user, r, u)
  {
    var i :| 0 <= i < |db| && db[i] == Change(db[i].at, user, u) && db[i].at <= r
      && forall j :: i < j < |db| && db[j].user == user ==> r <= db[j].at;
    assert (db + [c])[i] == db[i];
  }

  lemma ChangeKeepsInv(w: World, user: nat, record: Record)
    requires Inv(w)
    ensures Inv(Step(w, ChangePlan(user, record)))
  {
    var c := Change(w.now, user, record);
    forall u, r, x | Was(w.db, u, r, x) && r <= w.now ensures Was(w.db + [c], u, r, x) {
      WasStays(w.db, u, r, x, c);
    }
    hide Was;
    var v := Step(w, ChangePlan(user, record));
    forall k | 0 <= k < |v.issued| ensures Backed(v, v.issued[k]) { assert Backed(w, w.issued[k]); }
  }

  lemma StepKeepsInv(w: World, e: Event)
    requires Inv(w)
    ensures Inv(Step(w, e))
  {
    hide Was, Current;
    var v := Step(w, e);
    match e
    case ChangePlan(user, record) => ChangeKeepsInv(w, user, record);
    case Look(user) => CurrentSeen(w.db, user, w.now);
    case _ =>
  }

  lemma {:induction false} RunKeepsInv(w: World, es: seq<Event>)
    requires Inv(w)
    ensures Inv(Run(w, es))
    decreases |es|
  {
    hide Inv;
    if es != [] {
      StepKeepsInv(w, es[0]);
      RunKeepsInv(Step(w, es[0]), es[1..]);
    }
  }

  const START := World(0, [], map[], Idle, [])

  /** Bounded staleness, for every interleaving: behind a command issued at t for a user
      lies a moment at which the plan in the database was paid, at most 60 seconds plus the
      two latencies before t: stamping the data after reading it, and issuing the command
      after passing the gate. */
  lemma {:induction false} BoundedStaleness(es: seq<Event>, k: nat, fillLatency: int, commandLatency: int)
    requires k < |Run(START, es).issued|
    requires var c := Run(START, es).issued[k]; c.w - c.r <= fillLatency && c.t - c.c <= commandLatency
    ensures var w := Run(START, es);
      var c := w.issued[k];
      Was(w.db, c.user, c.r, Paid) && 0 <= c.t - c.r < 60 + fillLatency + commandLatency
  {
    assert Inv(START);
    hide Run, Was, Current;
    RunKeepsInv(START, es);
    assert Backed(Run(START, es), Run(START, es).issued[k]);
  }

  /** The bound is reached, latencies included: for every d below 60 and all latencies a and b
      some run issues a command for a user whose plan went free a + d + b seconds before, in
      the very second of the read.  With d = 59 that is the bound less one; with a + b > 0 it
      is more than a minute. */
  lemma StaleCommand(user: nat, d: nat, a: nat, b: nat)
    requires d < 60
    ensures var es := [ChangePlan(user, Paid), Look(user), ChangePlan(user, Free), Tick(a), Fill, Skip,
                       Tick(d), Look(user), Tick(b), Issue];
      var w := Run(START, es);
      w.issued == [Command(user, 0, a, a + d, a + d + b)]
      && w.db == [Change(0, user, Paid), Change(0, user, Free)]
      && Current(w.db, user) == Free
  {
    var es := [ChangePlan(user, Paid), Look(user), ChangePlan(user, Free), Tick(a), Fill, Skip,
               Tick(d), Look(user), Tick(b), Issue];
    var db := [Change(0, user, Paid), Change(0, user, Free)];
    var w3 := World(0, db, map[], Reading(user, Paid, 0), []);
    var w6 := World(a, db, map[user := Entry(Paid, a, 0)], Idle, []);
    StaleRead(user);
    StaleFill(user, a, w3);
    StaleIssue(user, a, d, b, w6);
    hide Step, Run;
    Unroll3(START, es);
    Unroll3(w3, es[3..]);
    assert es[3..][3..] == [Tick(d), Look(user), Tick(b), Issue];
    assert es[3..][0] == Tick(a) && es[3..][1] == Fill && es[3..][2] == Skip;
  }

  lemma StaleRead(user: nat)
    ensures Step(Step(Step(START, ChangePlan(user, Paid)), Look(user)), ChangePlan(user, Free))
      == World(0, [Change(0, user, Paid), Change(0, user, Free)], map[], Reading(user, Paid, 0), [])
  {
    var w1 := World(0, [Change(0, user, Paid)], map[], Idle, []);
    assert Step(START, ChangePlan(user, Paid)) == w1;
    assert Step(w1, Look(user)) == w1.(phase := Reading(user, Paid, 0));
  }

  lemma StaleFill(user: nat, a: nat, w: World)
    requires w.now == 0 && w.phase == Reading(user, Paid, 0) && w.cache == map[] && w.issued == []
    ensures Step(Step(Step(w, Tick(a)), Fill), Skip) == World(a, w.db, map[user := Entry(Paid, a, 0)], Idle, [])
  {
    assert Step(Step(w, Tick(a)), Fill).phase == Cleared(user, 0, a, a);
  }

  lemma StaleIssue(user: nat, a: nat, d: nat, b: nat, w: World)
    requires d < 60
    requires w == World(a, w.db, map[user := Entry(Paid, a, 0)], Idle, [])
    ensures Run(w, [Tick(d), Look(user), Tick(b), Issue])
      == World(a + d + b, w.db, w.cache, Idle, [Command(user, 0, a, a + d, a + d + b)])
  {
    var es := [Tick(d), Look(user), Tick(b), Issue];
    var v := w.(now := a + d + b, phase := Cleared(user, 0, a, a + d));
    assert Step(Step(Step(w, es[0]), es[1]), es[2]) == v;
    Unroll3(w, es);
    assert es[3..][1..] == [] && Run(v, es[3..]) == Run(Step(v, Issue), []);
  }

  lemma Unroll2(w: World, es: seq<Event>)
    requires 2 <= |es|
    ensures Run(w, es) == Run(Step(Step(w, es[0]), es[1]), es[2..])
  {
    hide Step;
    assert es[1..][1..] == es[2..];
  }

  lemma Unroll3(w: World, es: seq<Event>)
    requires 3 <= |es|
    ensures Run(w, es) == Run(Step(Step(Step(w, es[0]), es[1]), es[2]), es[3..])
  {
    hide Step;
    Unroll2(w, es);
    assert es[2..][1..] == es[3..];
  }
}
