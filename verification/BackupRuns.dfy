/** Retention, protection and file agreement over whole runs of the backup service:
    any sequence of calls, any fault in any of them. */
module BackupRuns {
  import opened Prelude
  import opened BackupStore

  datatype Op =
    | CreateOp(c: Config, q: Request, now: int, t: Throw, handlerThrows: bool, f: nat -> Fault)
    | SweepOp(now: int, limit: int, f: nat -> Fault)
    | CleanAutoOp(h: nat, f: nat -> Fault)
    | CleanManualOp(h: nat, limit: int, f: nat -> Fault)
    | CleanTtlOp(now: int, f: nat -> Fault)
    | DeleteOp(id: nat, user: Option<nat>, fault: Fault)
    | ProtectOp(id: nat, on: bool)

  function Apply(s: Store, op: Op): Store {
    match op
    case CreateOp(c, q, now, t, handlerThrows, f) => Create(s, c, q, now, t, handlerThrows, f).0
    case SweepOp(now, limit, f) => Purge(s, SweepIds(s.rows, now, limit), f)
    case CleanAutoOp(h, f) => Purge(s, Elems(PreviousAutos(s.rows, h, None)), f)
    case CleanManualOp(h, limit, f) => Purge(s, Elems(ExcessManuals(s.rows, h, limit)), f)
    case CleanTtlOp(now, f) => Purge(s, Elems(ExpiredIds(s.rows, now)), f)
    case DeleteOp(id, user, fault) => Delete(s, id, user, fault).0
    case ProtectOp(id, on) => Protect(s, id, on)
  }

  function RunOps(s: Store, ops: seq<Op>): Store
    decreases |ops|
  {
    if ops == [] then s else RunOps(Apply(s, ops[0]), ops[1..])
  }

  const EMPTY := Store([], {})

  ghost predicate FaultFree(f: nat -> Fault) { forall i :: f(i).NoFault? }

  // ------------------------------------------------------------ retention bounds

  lemma EmptyHasNone(a: seq<nat>)
    ensures a == [] <==> forall i :: i !in a
  {
    if a != [] { assert a[0] in a; }
  }

  /** A descending list is determined by its elements. */
  lemma {:induction false} DescendingUnique(a: seq<nat>, b: seq<nat>)
    requires Descending(a) && Descending(b) && forall i :: i in a <==> i in b
    ensures a == b
  {
    EmptyHasNone(a);
    EmptyHasNone(b);
    if a != [] {
      assert a[0] in b && b[0] in a;
      forall i ensures i in a[1..] <==> i in b[1..] {
        assert i in a[1..] <==> i in a && i != a[0];
        assert i in b[1..] <==> i in b && i != b[0];
      }
      DescendingUnique(a[1..], b[1..]);
    }
  }

  /** A completed scheduled backup leaves exactly itself: the one unprotected completed
      automatic backup of the hosting, with its directory. */
  lemma ScheduledKeepsOne(s: Store, c: Config, q: Request, now: int, handlerThrows: bool, f: nat -> Fault)
    requires q.trigger.Schedule? && FaultFree(f)
    requires Create(s, c, q, now, NoThrow, handlerThrows, f).1.Done?
    ensures var (v, r) := Create(s, c, q, now, NoThrow, handlerThrows, f);
      && r == Done(|s.rows|) && FreeAutos(v.rows, q.hosting) == [r.id] && r.id in v.dirs && v.rows[r.id].hasPath
  {
    var (v, r) := Create(s, c, q, now, NoThrow, handlerThrows, f);
    var id := |s.rows|;
    assert r.id == id;
    assert AutoFree(v.rows[id], q.hosting);
    DescendingUnique(FreeAutos(v.rows, q.hosting), [id]);
  }

  /** A completed manual backup leaves the newest `limit`, itself the first of them. */
  lemma ManualKeepsNewest(s: Store, c: Config, q: Request, now: int, handlerThrows: bool, f: nat -> Fault)
    requires q.trigger.Manual? && FaultFree(f) && 0 < ManualLimit(c, q)
    requires Create(s, c, q, now, NoThrow, handlerThrows, f).1.Done?
    ensures var (v, r) := Create(s, c, q, now, NoThrow, handlerThrows, f);
      var limit := ManualLimit(c, q);
      var kept := FreeManuals(v.rows, q.hosting);
      && r == Done(|s.rows|) && r.id in v.dirs
      && (var all := [r.id] + FreeManuals(s.rows, q.hosting);
          kept == if |all| <= limit then all else all[..limit])
  {
    var (v, r) := Create(s, c, q, now, NoThrow, handlerThrows, f);
    var id := |s.rows|;
    var s2 := Complete(MoveIn(Insert(s, NewRow(c, q, now)), id), id);
    var all := FreeManuals(s2.rows, q.hosting);
    assert s2.rows[..id] == s.rows;
    assert all == [id] + FreeManuals(s.rows, q.hosting);
    var limit := ManualLimit(c, q);
    var kept := if |all| <= limit then all else all[..limit];
    KeepsPrefix(s2, q.hosting, limit, f);
  }

  /** Deleting the excess keeps the newest `limit`. */
  lemma KeepsPrefix(s: Store, h: nat, limit: int, f: nat -> Fault)
    requires FaultFree(f) && 0 < limit
    ensures var all := FreeManuals(s.rows, h);
      FreeManuals(Purge(s, Elems(ExcessManuals(s.rows, h, limit)), f).rows, h)
        == if |all| <= limit then all else all[..limit]
  {
    var all := FreeManuals(s.rows, h);
    var excess := ExcessManuals(s.rows, h, limit);
    var v := Purge(s, Elems(excess), f);
    var kept := if |all| <= limit then all else all[..limit];
    forall i: nat ensures i in kept <==> i < |v.rows| && ManualFree(v.rows[i], h) {
      assert i in all <==> i in kept || i in excess by {
        if |all| > limit { assert all == all[..limit] + all[limit..]; }
      }
      assert !(i in kept && i in excess);
    }
    DescendingUnique(FreeManuals(v.rows, h), kept);
  }

  // ------------------------------------------------------------ the periodic sweep

  /** Deleting never adds to a query that deleted rows do not answer. */
  lemma {:induction false} PurgeShrinks(rows: seq<Row>, rows': seq<Row>, p: Row -> bool)
    requires |rows| == |rows'| && forall i :: 0 <= i < |rows| && p(rows'[i]) ==> p(rows[i])
    ensures |Newest(rows', p)| <= |Newest(rows, p)|
  {
    if rows != [] {
      var n := |rows| - 1;
      PurgeShrinks(rows[..n], rows'[..n], p);
    }
  }

  lemma NewestNotSwept(s: Store, now: int, limit: int, h: nat)
    requires KeptNeverExpire(s.rows) && Autos(s.rows, h) != []
    ensures var i := Autos(s.rows, h)[0]; i < |s.rows| && i !in SweepIds(s.rows, now, limit)
  {
    var ids := Autos(s.rows, h);
    var i := ids[0];
    assert i in ids;
    assert forall j: nat :: j < |s.rows| && Auto(s.rows[j], h) ==> j in ids && j <= i;
    assert !Superseded(s.rows, i);
  }

  /** The sweep, faults or not, keeps each hosting's newest automatic backup, files and
      row, and raises no count. */
  lemma SweepPreserves(s: Store, now: int, limit: int, f: nat -> Fault, h: nat)
    requires KeptNeverExpire(s.rows)
    ensures var v := Apply(s, SweepOp(now, limit, f));
      && |FreeAutos(v.rows, h)| <= |FreeAutos(s.rows, h)|
      && |FreeManuals(v.rows, h)| <= |FreeManuals(s.rows, h)|
      && (Autos(s.rows, h) != [] ==>
            var i := Autos(s.rows, h)[0];
            i < |s.rows| && v.rows[i] == s.rows[i] && (i in v.dirs <==> i in s.dirs))
  {
    hide Newest, SweepIds;
    var v := Apply(s, SweepOp(now, limit, f));
    PurgeShrinks(s.rows, v.rows, IsAutoFree(h));
    PurgeShrinks(s.rows, v.rows, IsManualFree(h));
    if Autos(s.rows, h) != [] { NewestNotSwept(s, now, limit, h); }
  }

  /** A sweep that a raising query breaks off is one in which the deletions it did not reach
      throw first: every run with such sweeps is a run of this model. */
  lemma BrokenSweepIsSweep(s: Store, now: int, limit: int, f: nat -> Fault, z: Raises)
    ensures var d := Swept(s.rows, now, limit, z);
      Purge(s, d, f) == Apply(s, SweepOp(now, limit, (i: nat) => if i in d then f(i) else BeforeFiles))
  {
    SweptIsSweep(s.rows, now, limit, z);
    hide SweepIds, Swept;
  }

  lemma OlderIsSuperseded(rows: seq<Row>, h: nat, i: nat, j: nat)
    requires i < j < |rows| && AutoFree(rows[i], h) && Auto(rows[j], h)
    ensures Superseded(rows, i)
  {}

  lemma {:induction false} NoneSelected(rows: seq<Row>, p: Row -> bool)
    requires forall i :: 0 <= i < |rows| ==> !p(rows[i])
    ensures Newest(rows, p) == []
  {
    if rows != [] { NoneSelected(rows[..|rows| - 1], p); }
  }

  lemma {:induction false} AtMostOneSelected(rows: seq<Row>, p: Row -> bool)
    requires forall i, j :: 0 <= i < j < |rows| && p(rows[i]) ==> !p(rows[j])
    ensures |Newest(rows, p)| <= 1
  {
    if rows != [] {
      var older := rows[..|rows| - 1];
      if p(rows[|rows| - 1]) { NoneSelected(older, p); } else { AtMostOneSelected(older, p); }
    }
  }

  lemma SweepLeavesOneAutomatic(s: Store, now: int, limit: int, f: nat -> Fault, h: nat)
    requires FaultFree(f)
    ensures |FreeAutos(Apply(s, SweepOp(now, limit, f)).rows, h)| <= 1
  {
    var v := Apply(s, SweepOp(now, limit, f));
    forall i: nat, j: nat | i < j < |v.rows| && AutoFree(v.rows[i], h) ensures !AutoFree(v.rows[j], h) {
      if AutoFree(s.rows[j], h) { OlderIsSuperseded(s.rows, h, i, j); }
    }
    AtMostOneSelected(v.rows, IsAutoFree(h));
  }

  lemma SweepKeepsNewestManuals(s: Store, now: int, limit: int, f: nat -> Fault, h: nat)
    requires KeptNeverExpire(s.rows) && FaultFree(f) && 0 < limit
    ensures var all := FreeManuals(s.rows, h);
      FreeManuals(Apply(s, SweepOp(now, limit, f)).rows, h) == if |all| <= limit then all else all[..limit]
  {
    var v := Apply(s, SweepOp(now, limit, f));
    CrowdedOf(s.rows, limit, h);
    var w := Purge(s, Elems(ExcessManuals(s.rows, h, limit)), f);
    KeepsPrefix(s, h, limit, f);
    hide Newest, ExcessManuals, Crowded;
    forall i: nat | i < |s.rows| ensures ManualFree(v.rows[i], h) == ManualFree(w.rows[i], h) {
      assert i in CrowdedIn(s.rows, limit, [h]) <==> Crowded(s.rows, limit, i) && s.rows[i].hosting == h;
    }
    NewestAgree(v.rows, w.rows, IsManualFree(h));
  }

  /** A sweep without faults leaves every hosting with at most one unprotected automatic
      backup and exactly the newest `limit` unprotected manual ones. */
  lemma SweepEstablishesBounds(s: Store, now: int, limit: int, f: nat -> Fault, h: nat)
    requires KeptNeverExpire(s.rows) && FaultFree(f) && 0 < limit
    ensures var v := Apply(s, SweepOp(now, limit, f));
      && |FreeAutos(v.rows, h)| <= 1
      && (var all := FreeManuals(s.rows, h);
          FreeManuals(v.rows, h) == if |all| <= limit then all else all[..limit])
  {
    SweepLeavesOneAutomatic(s, now, limit, f, h);
    SweepKeepsNewestManuals(s, now, limit, f, h);
    hide Apply, FreeAutos, FreeManuals;
  }

  // ------------------------------------------------------------------- protection

  lemma {:induction false} RunKeepsNoExpiry(s: Store, ops: seq<Op>)
    requires KeptNeverExpire(s.rows)
    ensures KeptNeverExpire(RunOps(s, ops).rows) && |s.rows| <= |RunOps(s, ops).rows|
    decreases |ops|
  {
    if ops != [] {
      StepKeepsNoExpiry(s, ops[0]);
      RunKeepsNoExpiry(Apply(s, ops[0]), ops[1..]);
    }
  }

  lemma StepKeepsNoExpiry(s: Store, op: Op)
    requires KeptNeverExpire(s.rows)
    ensures KeptNeverExpire(Apply(s, op).rows) && |s.rows| <= |Apply(s, op).rows|
  {
    hide SweepIds, PreviousAutos, ExcessManuals, ExpiredIds, Retired, Refusal;
  }

  /** The sweep deletes a protected backup exactly when its expiry has passed; so never a
      manual or scheduled one. */
  lemma SweepOnProtected(rows: seq<Row>, now: int, limit: int, i: nat)
    requires KeptNeverExpire(rows) && i < |rows| && rows[i].protected
    ensures i in SweepIds(rows, now, limit) <==> Expired(rows[i], now)
    ensures i in SweepIds(rows, now, limit) ==> Internal(rows[i].trigger)
  {}

  lemma StepSparesProtected(s: Store, op: Op, i: nat)
    requires KeptNeverExpire(s.rows) && i < |s.rows| && s.rows[i].protected && !Internal(s.rows[i].trigger)
    requires op.ProtectOp? && op.id == i ==> op.on
    ensures Apply(s, op).rows[..|s.rows|][i] == s.rows[i]
    ensures i in Apply(s, op).dirs <==> i in s.dirs
  {
    StepKeepsNoExpiry(s, op);
    if op.CreateOp? {
      CreateSpares(s, op.c, op.q, op.now, op.t, op.handlerThrows, op.f, i);
    }
  }

  lemma CreateSpares(s: Store, c: Config, q: Request, now: int, t: Throw, handlerThrows: bool, f: nat -> Fault, i: nat)
    requires i < |s.rows| && s.rows[i].protected
    ensures var v := Create(s, c, q, now, t, handlerThrows, f).0;
      |s.rows| <= |v.rows| && v.rows[i] == s.rows[i] && (i in v.dirs <==> i in s.dirs)
  {
    hide Refusal;
    if Refusal(s.rows, c, q).None? {
      var id := |s.rows|;
      var s2 := Complete(MoveIn(Insert(s, NewRow(c, q, now)), id), id);
      assert i !in Retired(s2.rows, c, q, id);
    }
  }

  /** Over every run, faults included, a protected manual or scheduled backup keeps its row
      and its files for as long as nobody lifts the protection; asking for its deletion
      does not help. */
  lemma {:induction false} ProtectedSurvives(s: Store, ops: seq<Op>, i: nat)
    requires KeptNeverExpire(s.rows) && i < |s.rows| && s.rows[i].protected && !Internal(s.rows[i].trigger)
    requires forall k :: 0 <= k < |ops| && ops[k].ProtectOp? && ops[k].id == i ==> ops[k].on
    ensures var v := RunOps(s, ops);
      i < |v.rows| && v.rows[i] == s.rows[i] && (i in v.dirs <==> i in s.dirs)
    decreases |ops|
  {
    if ops != [] {
      var u := Apply(s, ops[0]);
      StepKeepsNoExpiry(s, ops[0]);
      StepSparesProtected(s, ops[0], i);
      assert u.rows[..|s.rows|][i] == u.rows[i];
      forall k | 0 <= k < |ops[1..]| && ops[1..][k].ProtectOp? && ops[1..][k].id == i ensures ops[1..][k].on {
        assert ops[1..][k] == ops[k + 1];
      }
      ProtectedSurvives(u, ops[1..], i);
    }
  }

  // --------------------------------------------------------------- files and rows

  /** A directory belongs to a row that is completed, or that never recorded a path. */
  ghost predicate Filed(s: Store) {
    forall i :: i in s.dirs ==> i < |s.rows| && (s.rows[i].hasPath ==> s.rows[i].status.Completed?)
  }

  /** ... to a completed row. */
  ghost predicate FiledCompleted(s: Store) {
    forall i :: i in s.dirs ==> i < |s.rows| && s.rows[i].hasPath && s.rows[i].status.Completed?
  }

  /** ... and every completed row has one. */
  ghost predicate Agrees(s: Store) {
    && (forall i: nat :: i in s.dirs <==> i < |s.rows| && s.rows[i].status.Completed?)
    && (forall i: nat :: i < |s.rows| && s.rows[i].status.Completed? ==> s.rows[i].hasPath)
  }

  /** The one way to strand files: create throws after moving them in, and its except
      handler throws too. */
  predicate Strands(op: Op) { op.CreateOp? && op.t.Moved? && op.handlerThrows }

  ghost predicate Smooth(op: Op) {
    match op
    case CreateOp(_, _, _, t, _, f) => t.NoThrow? && FaultFree(f)
    case SweepOp(_, _, f) => FaultFree(f)
    case CleanAutoOp(_, f) => FaultFree(f)
    case CleanManualOp(_, _, f) => FaultFree(f)
    case CleanTtlOp(_, f) => FaultFree(f)
    case DeleteOp(_, _, fault) => fault.NoFault?
    case ProtectOp(_, _) => true
  }

  lemma PurgeKeepsFiled(s: Store, ids: set<nat>, f: nat -> Fault)
    ensures Filed(s) ==> Filed(Purge(s, ids, f))
    ensures FiledCompleted(s) ==> FiledCompleted(Purge(s, ids, f))
    ensures Agrees(s) && FaultFree(f) ==> Agrees(Purge(s, ids, f))
  {}

  lemma CreateKeepsFiled(s: Store, c: Config, q: Request, now: int, t: Throw, handlerThrows: bool, f: nat -> Fault)
    ensures var v := Create(s, c, q, now, t, handlerThrows, f).0;
      && (Filed(s) ==> Filed(v))
      && (FiledCompleted(s) && !(t.Moved? && handlerThrows) ==> FiledCompleted(v))
      && (Agrees(s) && t.NoThrow? && FaultFree(f) ==> Agrees(v))
  {
    hide Refusal, Purge, Retired;
    if Refusal(s.rows, c, q).None? {
      var id := |s.rows|;
      var s2 := Complete(MoveIn(Insert(s, NewRow(c, q, now)), id), id);
      PurgeKeepsFiled(s2, Elems(Retired(s2.rows, c, q, id)), f);
    }
  }

  lemma StepKeepsFiled(s: Store, op: Op)
    ensures Filed(s) ==> Filed(Apply(s, op))
    ensures FiledCompleted(s) && !Strands(op) ==> FiledCompleted(Apply(s, op))
    ensures Agrees(s) && Smooth(op) ==> Agrees(Apply(s, op))
  {
    hide Purge, Create, Filed, FiledCompleted, Agrees, SweepIds;
    match op
    case CreateOp(c, q, now, t, handlerThrows, f) => CreateKeepsFiled(s, c, q, now, t, handlerThrows, f);
    case SweepOp(now, limit, f) => PurgeKeepsFiled(s, SweepIds(s.rows, now, limit), f);
    case CleanAutoOp(h, f) => PurgeKeepsFiled(s, Elems(PreviousAutos(s.rows, h, None)), f);
    case CleanManualOp(h, limit, f) => PurgeKeepsFiled(s, Elems(ExcessManuals(s.rows, h, limit)), f);
    case CleanTtlOp(now, f) => PurgeKeepsFiled(s, Elems(ExpiredIds(s.rows, now)), f);
    case DeleteOp(id, user, fault) => PurgeKeepsFiled(s, {id}, (i: nat) => fault);
    case ProtectOp(id, on) => ProtectKeepsFiled(s, id, on);
  }

  lemma ProtectKeepsFiled(s: Store, id: nat, on: bool)
    ensures Filed(s) ==> Filed(Protect(s, id, on))
    ensures FiledCompleted(s) ==> FiledCompleted(Protect(s, id, on))
    ensures Agrees(s) ==> Agrees(Protect(s, id, on))
  {}

  lemma {:induction false} RunKeepsFiled(s: Store, ops: seq<Op>)
    ensures Filed(s) ==> Filed(RunOps(s, ops))
    ensures FiledCompleted(s) && (forall k :: 0 <= k < |ops| ==> !Strands(ops[k])) ==> FiledCompleted(RunOps(s, ops))
    ensures Agrees(s) && (forall k :: 0 <= k < |ops| ==> Smooth(ops[k])) ==> Agrees(RunOps(s, ops))
    decreases |ops|
  {
    hide Apply, Filed, FiledCompleted, Agrees, Strands, Smooth;
    if ops != [] {
      StepKeepsFiled(s, ops[0]);
      RunKeepsFiled(Apply(s, ops[0]), ops[1..]);
    }
  }

  /** Over every run with any faults, a row marked deleted has a directory only if it never
      recorded its path; without a stranding create it has none at all; without faults
      the directories are exactly those of the completed rows. */
  lemma FilesAgree(ops: seq<Op>)
    ensures var v := RunOps(EMPTY, ops);
      && (forall i :: i in v.dirs && i < |v.rows| && v.rows[i].status.Deleted? ==> !v.rows[i].hasPath)
      && ((forall k :: 0 <= k < |ops| ==> !Strands(ops[k])) ==>
            forall i :: i in v.dirs ==> i < |v.rows| && v.rows[i].status.Completed?)
      && ((forall k :: 0 <= k < |ops| ==> Smooth(ops[k])) ==>
            forall i: nat :: i in v.dirs <==> i < |v.rows| && v.rows[i].status.Completed?)
  {
    hide RunOps, Strands, Smooth;
    RunKeepsFiled(EMPTY, ops);
  }

  /** Deleting a backup leaves its directory behind exactly when the row never recorded it,
      and a stranding create makes such a row. */
  lemma DeletionLeavesFiles(s: Store, id: nat, user: Option<nat>)
    requires Delete(s, id, user, NoFault).1.Removed?
    ensures var v := Delete(s, id, user, NoFault).0;
      v.rows[id].status.Deleted? && (id in v.dirs <==> id in s.dirs && !s.rows[id].hasPath)
  {}

  lemma StrandedFiles(c: Config, q: Request, now: int, f: nat -> Fault)
    requires c.enabled && q.known && q.adminOverride
    ensures var v := RunOps(EMPTY, [CreateOp(c, q, now, Moved, true, f), DeleteOp(0, None, NoFault)]);
      |v.rows| == 1 && v.rows[0].status.Deleted? && v.dirs == {0}
  {
    var ops := [CreateOp(c, q, now, Moved, true, f), DeleteOp(0, None, NoFault)];
    var s1 := Apply(EMPTY, ops[0]);
    assert s1 == Store([NewRow(c, q, now)], {0});
    assert ops[1..] == [ops[1]] && ops[1..][1..] == [];
    assert RunOps(s1, [ops[1]]) == Apply(s1, ops[1]);
  }

  // ------------------------------------------------------------------ stuck backups

  lemma StepKeepsUnfinished(s: Store, op: Op, i: nat, h: nat)
    requires i < |s.rows| && Unfinished(s.rows[i], h) && !(op.DeleteOp? && op.id == i)
    ensures i < |Apply(s, op).rows| && Unfinished(Apply(s, op).rows[i], h)
  {
    if op.CreateOp? {
      CreateKeepsUnfinished(s, op.c, op.q, op.now, op.t, op.handlerThrows, op.f, i, h);
    }
  }

  lemma CreateKeepsUnfinished(s: Store, c: Config, q: Request, now: int, t: Throw, handlerThrows: bool,
                              f: nat -> Fault, i: nat, h: nat)
    requires i < |s.rows| && Unfinished(s.rows[i], h)
    ensures var v := Create(s, c, q, now, t, handlerThrows, f).0; i < |v.rows| && Unfinished(v.rows[i], h)
  {
    hide Refusal;
    if Refusal(s.rows, c, q).None? {
      var id := |s.rows|;
      var s2 := Complete(MoveIn(Insert(s, NewRow(c, q, now)), id), id);
      assert i !in Retired(s2.rows, c, q, id);
    }
  }

  /** A row left running, by a create whose except handler threw or that died before its try
      block, is never finished: over every run it blocks all backups of its hosting until
      somebody deletes that very backup. */
  lemma {:induction false} StuckBackupBlocks(s: Store, ops: seq<Op>, i: nat, h: nat)
    requires i < |s.rows| && Unfinished(s.rows[i], h)
    requires forall k :: 0 <= k < |ops| ==> !(ops[k].DeleteOp? && ops[k].id == i)
    ensures var v := RunOps(s, ops);
      && i < |v.rows| && Unfinished(v.rows[i], h)
      && forall c: Config, q: Request :: q.hosting == h ==> Refusal(v.rows, c, q).Some?
    decreases |ops|
  {
    if ops != [] {
      StepKeepsUnfinished(s, ops[0], i, h);
      forall k | 0 <= k < |ops[1..]| ensures !(ops[1..][k].DeleteOp? && ops[1..][k].id == i) {
        assert ops[1..][k] == ops[k + 1];
      }
      StuckBackupBlocks(Apply(s, ops[0]), ops[1..], i, h);
    }
  }

  /** How a row gets stuck. */
  lemma HandlerThrowLeavesRunning(s: Store, c: Config, q: Request, now: int, t: Throw, f: nat -> Fault)
    requires Refusal(s.rows, c, q).None? && (t.Building? || t.Moved?)
    ensures var (v, r) := Create(s, c, q, now, t, true, f);
      r == Raised(|s.rows|) && |v.rows| == |s.rows| + 1 && Unfinished(v.rows[|s.rows|], q.hosting)
  {}

  /** No two backups of one hosting are unfinished. */
  ghost predicate OneAtATime(rows: seq<Row>) {
    forall i, j :: 0 <= i < j < |rows| && Unfinished(rows[i], rows[i].hosting) && rows[i].hosting == rows[j].hosting ==>
      !Unfinished(rows[j], rows[i].hosting)
  }

  lemma PurgeKeepsOneAtATime(s: Store, ids: set<nat>, f: nat -> Fault)
    requires OneAtATime(s.rows)
    ensures OneAtATime(Purge(s, ids, f).rows)
  {}

  lemma CreateKeepsOneAtATime(s: Store, c: Config, q: Request, now: int, t: Throw, handlerThrows: bool, f: nat -> Fault)
    requires OneAtATime(s.rows)
    ensures OneAtATime(Create(s, c, q, now, t, handlerThrows, f).0.rows)
  {
    if Refusal(s.rows, c, q).None? {
      var id := |s.rows|;
      var s1 := Insert(s, NewRow(c, q, now));
      assert forall i :: 0 <= i < id ==> !Unfinished(s.rows[i], q.hosting);
      hide Refusal, Purge, Retired;
      var s2 := Complete(MoveIn(s1, id), id);
      assert OneAtATime(s2.rows);
      PurgeKeepsOneAtATime(s2, Elems(Retired(s2.rows, c, q, id)), f);
    }
  }

  /** Called one after the other, with any failures, create calls never leave a hosting with
      two unfinished backups. */
  lemma {:induction false} RunKeepsOneAtATime(s: Store, ops: seq<Op>)
    requires OneAtATime(s.rows)
    ensures OneAtATime(RunOps(s, ops).rows)
    decreases |ops|
  {
    hide OneAtATime, Create, Purge, SweepIds;
    if ops != [] {
      match ops[0] {
        case CreateOp(c, q, now, t, handlerThrows, f) => CreateKeepsOneAtATime(s, c, q, now, t, handlerThrows, f);
        case SweepOp(now, limit, f) => PurgeKeepsOneAtATime(s, SweepIds(s.rows, now, limit), f);
        case CleanAutoOp(h, f) => PurgeKeepsOneAtATime(s, Elems(PreviousAutos(s.rows, h, None)), f);
        case CleanManualOp(h, limit, f) => PurgeKeepsOneAtATime(s, Elems(ExcessManuals(s.rows, h, limit)), f);
        case CleanTtlOp(now, f) => PurgeKeepsOneAtATime(s, Elems(ExpiredIds(s.rows, now)), f);
        case DeleteOp(id, user, fault) => PurgeKeepsOneAtATime(s, {id}, (i: nat) => fault);
        case ProtectOp(id, on) => ProtectKeepsOneAtATime(s, id, on);
      }
      RunKeepsOneAtATime(Apply(s, ops[0]), ops[1..]);
    }
  }

  lemma ProtectKeepsOneAtATime(s: Store, id: nat, on: bool)
    requires OneAtATime(s.rows)
    ensures OneAtATime(Protect(s, id, on).rows)
  {}

  /** A deletion on request touches no other backup, nothing protected and nothing of another
      user, whatever fails; and it reports success exactly when the row is then deleted. */
  lemma DeletionStaysWithinItsBackup(s: Store, id: nat, user: Option<nat>, t: Fault)
    ensures var (v, r) := Delete(s, id, user, t);
      && |v.rows| == |s.rows|
      && (forall i: nat :: i != id ==> (i < |s.rows| ==> v.rows[i] == s.rows[i]) && (i in v.dirs <==> i in s.dirs))
      && (id < |s.rows| && (s.rows[id].protected || (user.Some? && s.rows[id].user != user.value)) ==> v == s)
      && (r.Removed? ==> id < |s.rows| && v.rows[id].status.Deleted?)
      && (id < |s.rows| && v.rows[id].status.Deleted? && !s.rows[id].status.Deleted? ==> r.Removed?)
  {}
}
