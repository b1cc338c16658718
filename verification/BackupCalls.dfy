/** What each call of the backup service does, case by case and outright: which backups its
    queries select, when it is refused, what it stores and for whom, what it deletes, when a
    snapshot expires. */
module BackupCalls {
  import opened Prelude
  import opened BackupStore
  import opened BackupRuns

  // ------------------------------------------------------------------- queries

  /** The WHERE clauses. */
  lemma Selections(rows: seq<Row>, h: nat, now: int, i: nat)
    requires i < |rows|
    ensures i in Autos(rows, h) <==>
      rows[i].hosting == h && rows[i].trigger == Schedule && rows[i].status == Completed
    ensures i in FreeAutos(rows, h) <==>
      rows[i].hosting == h && rows[i].trigger == Schedule && rows[i].status == Completed && !rows[i].protected
    ensures i in FreeManuals(rows, h) <==>
      rows[i].hosting == h && rows[i].trigger == Manual && rows[i].status == Completed && !rows[i].protected
    ensures i in ExpiredIds(rows, now) <==>
      rows[i].expires.Some? && rows[i].expires.value < now && (rows[i].status == Completed || rows[i].status == Failed)
  {}

  // -------------------------------------------------------------------- create

  lemma Started(s: Store, c: Config, q: Request, now: int, t: Throw, handlerThrows: bool, f: nat -> Fault)
    requires var r := Create(s, c, q, now, t, handlerThrows, f).1; r.Done? || r.FailedWith? || r.Raised?
    ensures Refusal(s.rows, c, q).None?
    ensures Create(s, c, q, now, t, handlerThrows, f).1.Done? && q.trigger.Manual? && !q.adminOverride ==>
      q.plan in {Negocio, Agencia, AgenciaPro, Enterprise, EnterpriseAnnual, EnterpriseMonthly}
  {}

  /** When a create call is refused and why; a refused call changes nothing. */
  lemma RefusedExactly(s: Store, c: Config, q: Request, now: int, t: Throw, handlerThrows: bool, f: nat -> Fault)
    ensures var (v, r) := Create(s, c, q, now, t, handlerThrows, f);
      var asked := q.trigger == Schedule || q.trigger == Manual;
      var automatic := q.plan in {AgenciaPro, Enterprise, EnterpriseAnnual, EnterpriseMonthly};
      var entitled := q.adminOverride || automatic || (q.trigger == Manual && q.plan in {Negocio, Agencia});
      var busy := exists i :: 0 <= i < |s.rows| && s.rows[i].hosting == q.hosting
                              && (s.rows[i].status == Pending || s.rows[i].status == Running);
      && (r == Disabled <==> asked && !c.enabled)
      && (r == NotFound <==> !(asked && !c.enabled) && !q.known)
      && (r == PlanRequired <==> !(asked && !c.enabled) && q.known && asked && !entitled)
      && (r == AlreadyRunning <==>
            !(asked && !c.enabled) && q.known && !(asked && !entitled) && busy)
      && (r in {Disabled, NotFound, PlanRequired, AlreadyRunning} ==> v == s)
  {
    hide Purge, Retired;
    assert (exists i :: 0 <= i < |s.rows| && Unfinished(s.rows[i], q.hosting)) <==>
           exists i :: 0 <= i < |s.rows| && s.rows[i].hosting == q.hosting
                       && (s.rows[i].status == Pending || s.rows[i].status == Running);
  }

  /** A call that is let in ends in one of three ways, decided by what throws. */
  lemma EndsExactly(s: Store, c: Config, q: Request, now: int, t: Throw, handlerThrows: bool, f: nat -> Fault)
    requires Refusal(s.rows, c, q).None?
    ensures var r := Create(s, c, q, now, t, handlerThrows, f).1;
      var fails := t == Building || t == Moved || (t == Selecting && (q.trigger == Schedule || q.trigger == Manual));
      r == if !fails then Done(|s.rows|) else if handlerThrows then Raised(|s.rows|) else FailedWith(|s.rows|)
  {
    hide Purge, Retired, Refusal;
  }

  /** A backup that is done belongs to the owner of its hosting, is completed and unprotected,
      has its directory, and expires if it is an internal snapshot. */
  lemma CreateStores(s: Store, c: Config, q: Request, now: int, t: Throw, handlerThrows: bool, f: nat -> Fault)
    requires Create(s, c, q, now, t, handlerThrows, f).1.Done?
    ensures var v := Create(s, c, q, now, t, handlerThrows, f).0;
      var id := |s.rows|;
      && |v.rows| == id + 1 && id in v.dirs
      && v.rows[id].hosting == q.hosting && v.rows[id].user == q.user && v.rows[id].trigger == q.trigger
      && v.rows[id].status == Completed && v.rows[id].hasPath && !v.rows[id].protected
      && v.rows[id].expires ==
           if q.trigger == Schedule || q.trigger == Manual then None else Some(now + c.ttl)
  {
    Started(s, c, q, now, t, handlerThrows, f);
    hide Refusal;
    var id := |s.rows|;
    var s2 := Complete(MoveIn(Insert(s, NewRow(c, q, now)), id), id);
    assert id !in Retired(s2.rows, c, q, id) by { NewestStays(s2.rows, c, q, id); }
  }

  /** The backup just made is not among those its own call retires. */
  lemma NewestStays(rows: seq<Row>, c: Config, q: Request, id: nat)
    requires |rows| == id + 1 && (q.trigger.Manual? ==> ManualFree(rows[id], q.hosting))
    ensures id !in Retired(rows, c, q, id)
  {
    var limit := ManualLimit(c, q);
    if q.trigger.Manual? && 0 < limit {
      ExcessMember(rows, limit, q.hosting, id);
      assert rows[id + 1..] == [];
    }
  }

  /** What a create call does to the other backups: at most it deletes completed unprotected
      ones of the same hosting and kind; an internal snapshot deletes none. */
  lemma CreateTouches(s: Store, c: Config, q: Request, now: int, t: Throw, handlerThrows: bool, f: nat -> Fault, i: nat)
    requires i < |s.rows|
    ensures var v := Create(s, c, q, now, t, handlerThrows, f).0;
      var was := s.rows[i];
      var retirable := was.status == Completed && !was.protected && was.hosting == q.hosting
                         && was.trigger == q.trigger && (q.trigger == Schedule || q.trigger == Manual);
      && |s.rows| <= |v.rows|
      && (v.rows[i] == was || (retirable && v.rows[i] == was.(status := Deleted)))
      && (i in v.dirs ==> i in s.dirs) && (i in s.dirs && i !in v.dirs ==> retirable)
  {
    hide Refusal;
  }

  /** A failed call leaves its row as failed and no directory; nothing else has changed. */
  lemma FailedLeavesARow(s: Store, c: Config, q: Request, now: int, t: Throw, f: nat -> Fault)
    requires Create(s, c, q, now, t, false, f).1.FailedWith?
    ensures var v := Create(s, c, q, now, t, false, f).0;
      && |v.rows| == |s.rows| + 1 && v.rows[..|s.rows|] == s.rows && v.dirs == s.dirs - {|s.rows|}
      && v.rows[|s.rows|].status == Failed && v.rows[|s.rows|].hosting == q.hosting
  {
    Started(s, c, q, now, t, false, f);
    hide Refusal;
  }

  /** If its handler throws as well, the row stays as it was at the throw, and so does the
      directory. */
  lemma RaisedLeavesAll(s: Store, c: Config, q: Request, now: int, t: Throw, f: nat -> Fault)
    requires Create(s, c, q, now, t, true, f).1.Raised?
    ensures var v := Create(s, c, q, now, t, true, f).0;
      && |v.rows| == |s.rows| + 1 && v.rows[..|s.rows|] == s.rows
      && v.dirs == s.dirs + (if t == Building then {} else {|s.rows|})
      && v.rows[|s.rows|].status == if t == Selecting then Completed else Running
  {
    Started(s, c, q, now, t, true, f);
    hide Refusal;
  }

  // ----------------------------------------------------------------- retention

  /** How many manual backups a plan keeps: after a manual call without an override the newest
      one of Negocio and the newest two of every other plan that is let in, whatever the
      environment says; with an override as many as the environment says, and all when that
      is not positive. */
  lemma ManualQuota(s: Store, c: Config, q: Request, now: int, h: bool, f: nat -> Fault)
    requires q.trigger.Manual? && FaultFree(f) && Create(s, c, q, now, NoThrow, h, f).1.Done?
    ensures var v := Create(s, c, q, now, NoThrow, h, f).0;
      var all := [|s.rows|] + FreeManuals(s.rows, q.hosting);
      var kept := FreeManuals(v.rows, q.hosting);
      && (!q.adminOverride && q.plan == Negocio ==> kept == all[..1])
      && (!q.adminOverride && q.plan != Negocio ==>
            && q.plan in {Agencia, AgenciaPro, Enterprise, EnterpriseAnnual, EnterpriseMonthly}
            && kept == if |all| <= 2 then all else all[..2])
      && (q.adminOverride && 0 < c.envMax ==> kept == if |all| <= c.envMax then all else all[..c.envMax])
      && (q.adminOverride && c.envMax <= 0 ==>
            kept == all && v.rows[..|s.rows|] == s.rows && v.dirs == s.dirs + {|s.rows|})
  {
    Started(s, c, q, now, NoThrow, h, f);
    hide Newest, Refusal;
    if 0 < ManualLimit(c, q) {
      ManualKeepsNewest(s, c, q, now, h, f);
    } else {
      NoneRetired(s, c, q, now, h, f);
    }
  }

  lemma NoneRetired(s: Store, c: Config, q: Request, now: int, h: bool, f: nat -> Fault)
    requires q.trigger.Manual? && ManualLimit(c, q) <= 0 && Create(s, c, q, now, NoThrow, h, f).1.Done?
    ensures var v := Create(s, c, q, now, NoThrow, h, f).0;
      && FreeManuals(v.rows, q.hosting) == [|s.rows|] + FreeManuals(s.rows, q.hosting)
      && |s.rows| <= |v.rows| && v.rows[..|s.rows|] == s.rows && v.dirs == s.dirs + {|s.rows|}
  {
    Started(s, c, q, now, NoThrow, h, f);
    hide Newest, Refusal, Purge;
    var id := |s.rows|;
    var s2 := Complete(MoveIn(Insert(s, NewRow(c, q, now)), id), id);
    assert Retired(s2.rows, c, q, id) == [] && Elems([]) == {};
    PurgeNone(s2, f);
    assert s2.rows == s.rows + [s2.rows[id]];
    NewestSnoc(s.rows, s2.rows[id], IsManualFree(q.hosting));
  }

  /** The manual route of the cleanup of automatic backups: the newest unprotected one stays,
      and all others go. */
  lemma CleanupKeepsNewestAutomatic(s: Store, h: nat, f: nat -> Fault)
    requires FaultFree(f)
    ensures var all := FreeAutos(s.rows, h);
      var v := Apply(s, CleanAutoOp(h, f));
      FreeAutos(v.rows, h) == if all == [] then [] else all[..1]
  {
    var all := FreeAutos(s.rows, h);
    var v := Apply(s, CleanAutoOp(h, f));
    var gone := PreviousAutos(s.rows, h, None);
    var kept := if all == [] then [] else all[..1];
    if all != [] { assert all == [all[0]] + all[1..]; }
    forall i: nat ensures i in kept <==> i < |v.rows| && AutoFree(v.rows[i], h) {
      assert i in all <==> i in kept || i in gone;
      assert !(i in kept && i in gone);
    }
    DescendingUnique(FreeAutos(v.rows, h), kept);
  }

  /** An internal snapshot that was made at `now` is deleted by a sweep without faults exactly
      when more than its lifetime has passed; a backup of the other kinds, never for its age. */
  lemma SnapshotExpires(s: Store, c: Config, q: Request, now: int, h: bool, f: nat -> Fault, later: int, limit: int,
                        g: nat -> Fault)
    requires FaultFree(g) && Create(s, c, q, now, NoThrow, h, f).1.Done? && q.trigger in {PreRestore, PreDelete, System}
    ensures var v := Create(s, c, q, now, NoThrow, h, f).0;
      var swept := Apply(v, SweepOp(later, limit, g));
      && |s.rows| < |swept.rows|
      && (swept.rows[|s.rows|].status == Deleted <==> now + c.ttl < later)
      && (|s.rows| in swept.dirs <==> later <= now + c.ttl)
  {
    CreateStores(s, c, q, now, NoThrow, h, f);
    hide Create;
    var v := Create(s, c, q, now, NoThrow, h, f).0;
    assert |s.rows| in SweepIds(v.rows, later, limit) <==> now + c.ttl < later by { hide Newest; }
  }

  /** What a sweep deletes, row by row, and what it leaves of a row. */
  lemma SweepTouches(s: Store, now: int, limit: int, f: nat -> Fault, i: nat)
    requires KeptNeverExpire(s.rows) && FaultFree(f) && i < |s.rows|
    ensures var r := s.rows[i];
      var v := Apply(s, SweepOp(now, limit, f));
      var expired := r.expires.Some? && r.expires.value < now && (r.status == Completed || r.status == Failed);
      var outdated := r.trigger == Schedule && r.status == Completed && !r.protected
                 && exists j :: i < j < |s.rows| && s.rows[j].hosting == r.hosting && s.rows[j].trigger == Schedule
                                && s.rows[j].status == Completed;
      var crowded := r.trigger == Manual && r.status == Completed && !r.protected && 0 < limit
                     && limit <= |FreeManuals(s.rows[i + 1..], r.hosting)|;
      && |v.rows| == |s.rows|
      && v.rows[i] == (if expired || outdated || crowded then r.(status := Deleted) else r)
      && (i in v.dirs <==> i in s.dirs && !((expired || outdated || crowded) && r.hasPath))
  {
    hide Newest;
    var h := s.rows[i].hosting;
    assert (exists j :: i < j < |s.rows| && Auto(s.rows[j], h)) <==>
           exists j :: i < j < |s.rows| && s.rows[j].hosting == h && s.rows[j].trigger == Schedule
                       && s.rows[j].status == Completed;
  }

  // --------------------------------------------------------- delete and protect

  /** A deletion on request: who may, and what is left. */
  lemma DeleteExactly(s: Store, id: nat, user: Option<nat>, t: Fault)
    ensures var (v, r) := Delete(s, id, user, t);
      var mine := id < |s.rows| && (user.None? || user == Some(s.rows[id].user));
      && (r == NoSuchBackup <==> !mine)
      && (r == IsProtected <==> mine && s.rows[id].protected)
      && (r == Removed <==> mine && !s.rows[id].protected && t == NoFault)
      && (r == Removed ==> v.rows == s.rows[id := s.rows[id].(status := Deleted)])
      && (r != Removed ==> v.rows == s.rows)
      && (mine && !s.rows[id].protected && t != BeforeFiles && s.rows[id].hasPath ==> v.dirs == s.dirs - {id})
      && (r in {NoSuchBackup, IsProtected} || t == BeforeFiles ==> v.dirs == s.dirs)
  {
    if id < |s.rows| { PurgeOne(s, id, (i: nat) => t); }
  }

  /** Protecting a backup sets its flag, either way, and nothing else; so does undoing it. */
  lemma ProtectExactly(s: Store, id: nat, on: bool)
    ensures var v := Protect(s, id, on);
      && |v.rows| == |s.rows| && v.dirs == s.dirs
      && (forall i :: 0 <= i < |s.rows| && i != id ==> v.rows[i] == s.rows[i])
      && (id < |s.rows| ==> v.rows[id] == s.rows[id].(protected := on)
                            && Protect(v, id, s.rows[id].protected) == s)
  {
    if id < |s.rows| {
      assert s.rows[id := s.rows[id].(protected := on)][id := s.rows[id]] == s.rows;
    }
  }
}
