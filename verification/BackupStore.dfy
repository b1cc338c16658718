/** The tenant backup table and its directory tree: app/services/tenant_backup_service.py.

    A row's backup_id is its index, and rows are inserted in started_at order, so
    "ORDER BY started_at DESC" is descending index.  The directory of backup i is
    tenants/<hosting>/<kind>/<i>, so the tree is the set of ids that have one. */
module BackupStore {
  import opened Prelude

  datatype Trigger = Schedule | Manual | PreRestore | PreDelete | System

  predicate Internal(t: Trigger) { t.PreRestore? || t.PreDelete? || t.System? }

  datatype Status = Pending | Running | Completed | Failed | Deleted

  /** `hasPath`: local_path is set, to the row's own directory. */
  datatype Row = Row(hosting: nat, user: nat, trigger: Trigger, status: Status,
                     hasPath: bool, expires: Option<int>, protected: bool)

  datatype Store = Store(rows: seq<Row>, dirs: set<nat>)

  // ------------------------------------------------------------------- queries

  predicate Auto(r: Row, h: nat) { r.hosting == h && r.trigger.Schedule? && r.status.Completed? }

  predicate AutoFree(r: Row, h: nat) { Auto(r, h) && !r.protected }

  predicate ManualFree(r: Row, h: nat) {
    r.hosting == h && r.trigger.Manual? && r.status.Completed? && !r.protected
  }

  predicate Unfinished(r: Row, h: nat) { r.hosting == h && (r.status.Pending? || r.status.Running?) }

  predicate Expired(r: Row, now: int) {
    r.expires.Some? && r.expires.value < now
    && !r.status.Deleted? && !r.status.Running? && !r.status.Pending?
  }

  predicate Descending(ids: seq<nat>) { forall m, n :: 0 <= m < n < |ids| ==> ids[n] < ids[m] }

  /** SELECT backup_id ... WHERE p ORDER BY started_at DESC. */
  function Newest(rows: seq<Row>, p: Row -> bool): (ids: seq<nat>)
    ensures forall i: nat :: i in ids <==> i < |rows| && p(rows[i])
    ensures Descending(ids)
  {
    if rows == [] then []
    else
      var n := |rows| - 1;
      var rest := Newest(rows[..n], p);
      assert forall i: nat :: i < n ==> rows[..n][i] == rows[i];
      assert |rows[..n]| == n;
      assert forall m :: 0 <= m < |rest| ==> rest[m] in rest;
      assert forall i :: i in rest ==> i < n;
      if p(rows[n]) then [n] + rest else rest
  }

  function IsAuto(h: nat): Row -> bool { (r: Row) => Auto(r, h) }

  function IsAutoFree(h: nat): Row -> bool { (r: Row) => AutoFree(r, h) }

  function IsManualFree(h: nat): Row -> bool { (r: Row) => ManualFree(r, h) }

  function Autos(rows: seq<Row>, h: nat): seq<nat> { Newest(rows, IsAuto(h)) }

  function FreeAutos(rows: seq<Row>, h: nat): seq<nat> { Newest(rows, IsAutoFree(h)) }

  function FreeManuals(rows: seq<Row>, h: nat): seq<nat> { Newest(rows, IsManualFree(h)) }

  function Without(ids: seq<nat>, x: nat): (r: seq<nat>)
    ensures forall i :: i in r <==> i in ids && i != x
    ensures Descending(ids) ==> Descending(r)
  {
    if ids == [] then []
    else
      var rest := Without(ids[1..], x);
      assert forall m :: 0 <= m < |rest| ==> rest[m] in rest;
      if ids[0] == x then rest else [ids[0]] + rest
  }

  /** What _cleanup_automatic_previous selects: everything but the given backup, or
      everything but the newest (OFFSET 1). */
  function PreviousAutos(rows: seq<Row>, h: nat, keep: Option<nat>): (r: seq<nat>)
    ensures Descending(r) && forall i :: i in r ==> i < |rows| && AutoFree(rows[i], h)
  {
    var ids := FreeAutos(rows, h);
    match keep
    case Some(k) => Without(ids, k)
    case None =>
      if ids == [] then []
      else assert forall m :: 0 <= m < |ids[1..]| ==> ids[1..][m] == ids[m + 1] && ids[m + 1] in ids; ids[1..]
  }

  /** What _cleanup_manual_excess selects: nothing at all when the limit is not positive. */
  function ExcessManuals(rows: seq<Row>, h: nat, limit: int): (r: seq<nat>)
    ensures Descending(r) && forall i :: i in r ==> i < |rows| && ManualFree(rows[i], h)
  {
    var ids := FreeManuals(rows, h);
    if limit <= 0 || |ids| <= limit then []
    else
      assert forall m :: 0 <= m < |ids[limit..]| ==> ids[limit..][m] == ids[m + limit] && ids[m + limit] in ids;
      ids[limit..]
  }

  function ExpiredIds(rows: seq<Row>, now: int): seq<nat> { Newest(rows, (r: Row) => Expired(r, now)) }

  // ------------------------------------------------------------------ deletion

  /** What a throw interrupts while one backup is being deleted: files go first, then the row. */
  datatype Fault = NoFault | BeforeFiles | BeforeRow

  function Purge(s: Store, ids: set<nat>, f: nat -> Fault): Store {
    Store(seq(|s.rows|, i requires 0 <= i < |s.rows| =>
            if i in ids && f(i).NoFault? then s.rows[i].(status := Deleted) else s.rows[i]),
          set i | i in s.dirs && !(i in ids && i < |s.rows| && s.rows[i].hasPath && !f(i).BeforeFiles?))
  }

  function Elems(ids: seq<nat>): set<nat> { set i | i in ids }

  lemma PurgeTwice(s: Store, d: set<nat>, e: set<nat>, f: nat -> Fault)
    ensures Purge(Purge(s, d, f), e, f) == Purge(s, d + e, f)
  {
    var a := Purge(Purge(s, d, f), e, f);
    var b := Purge(s, d + e, f);
    assert a.rows == b.rows;
    assert a.dirs == b.dirs;
  }

  lemma PurgeNone(s: Store, f: nat -> Fault)
    ensures Purge(s, {}, f) == s
  {
    assert Purge(s, {}, f).rows == s.rows;
  }

  /** Deleting one backup, as the loops do it. */
  lemma PurgeOne(s: Store, i: nat, f: nat -> Fault)
    requires i < |s.rows|
    ensures Purge(s, {i}, f) ==
      Store(if f(i).NoFault? then s.rows[i := s.rows[i].(status := Deleted)] else s.rows,
            if s.rows[i].hasPath && !f(i).BeforeFiles? then s.dirs - {i} else s.dirs)
  {
    var v := Purge(s, {i}, f);
    assert v.rows == if f(i).NoFault? then s.rows[i := s.rows[i].(status := Deleted)] else s.rows;
  }

  lemma ElemsSnoc(ids: seq<nat>, i: nat)
    ensures Elems(ids + [i]) == Elems(ids) + {i}
  {}

  /** The deletions that went through. */
  function Cleared(ids: set<nat>, f: nat -> Fault): set<nat> { set i | i in ids && f(i).NoFault? }

  lemma ClearedNone(f: nat -> Fault)
    ensures Cleared({}, f) == {}
  {}

  lemma ClearedAdds(d: set<nat>, e: set<nat>, f: nat -> Fault)
    requires d !! e
    ensures |Cleared(d + e, f)| == |Cleared(d, f)| + |Cleared(e, f)|
  {
    assert Cleared(d + e, f) == Cleared(d, f) + Cleared(e, f);
  }

  /** One more backup of the list. */
  lemma PurgeRound(s: Store, ids: seq<nat>, k: nat, f: nat -> Fault)
    requires k < |ids| && Descending(ids) && ids[k] < |s.rows|
    ensures var v := Purge(s, Elems(ids[..k]), f);
      var i := ids[k];
      && |v.rows| == |s.rows|
      && Purge(s, Elems(ids[..k + 1]), f)
           == Store(if f(i).NoFault? then v.rows[i := v.rows[i].(status := Deleted)] else v.rows,
                    if v.rows[i].hasPath && !f(i).BeforeFiles? then v.dirs - {i} else v.dirs)
      && |Cleared(Elems(ids[..k + 1]), f)| == |Cleared(Elems(ids[..k]), f)| + if f(i).NoFault? then 1 else 0
  {
    var v, i := Purge(s, Elems(ids[..k]), f), ids[k];
    assert i !in Elems(ids[..k]);
    assert ids[..k + 1] == ids[..k] + [i];
    assert |v.rows| == |s.rows|;
    assert Cleared({i}, f) == if f(i).NoFault? then {i} else {};
    hide *;
    ElemsSnoc(ids[..k], i);
    PurgeTwice(s, Elems(ids[..k]), {i}, f);
    PurgeOne(v, i, f);
    ClearedAdds(Elems(ids[..k]), {i}, f);
  }

  // ------------------------------------------------------------------- creation

  datatype Plan =
    | Free | Personal | Negocio | Agencia | AgenciaPro
    | Enterprise | EnterpriseAnnual | EnterpriseMonthly | OtherPlan

  predicate AutomaticPlan(p: Plan) {
    p.AgenciaPro? || p.Enterprise? || p.EnterpriseAnnual? || p.EnterpriseMonthly?
  }

  predicate ManualPlan(p: Plan) { p.Negocio? || p.Agencia? || AutomaticPlan(p) }

  function MaxManual(p: Plan): nat {
    match p
    case Negocio => 1
    case Agencia => 2
    case _ => if AutomaticPlan(p) then 2 else 0
  }

  /** `enabled` is BACKUP_ENABLED, `envMax` BACKUP_MAX_MANUAL_BACKUPS_PER_TENANT and
      `ttl` BACKUP_PRE_RESTORE_TTL_HOURS in seconds. */
  datatype Config = Config(enabled: bool, envMax: int, ttl: int)

  datatype Request = Request(hosting: nat, known: bool, user: nat, plan: Plan, trigger: Trigger, adminOverride: bool)

  datatype Outcome =
    | Disabled | NotFound | PlanRequired | AlreadyRunning
    | Done(id: nat) | FailedWith(id: nat) | Raised(id: nat)

  /** The checks before the row is inserted; None lets the backup start. */
  function Refusal(rows: seq<Row>, c: Config, q: Request): Option<Outcome> {
    if !c.enabled && !Internal(q.trigger) then Some(Disabled)
    else if !q.known then Some(NotFound)
    else if q.trigger.Schedule? && !q.adminOverride && !AutomaticPlan(q.plan) then Some(PlanRequired)
    else if q.trigger.Manual? && !q.adminOverride && !ManualPlan(q.plan) then Some(PlanRequired)
    else if exists i :: 0 <= i < |rows| && Unfinished(rows[i], q.hosting) then Some(AlreadyRunning)
    else None
  }

  function NewRow(c: Config, q: Request, now: int): Row {
    Row(q.hosting, q.user, q.trigger, Running, false,
        if Internal(q.trigger) then Some(now + c.ttl) else None, false)
  }

  function Insert(s: Store, r: Row): Store { s.(rows := s.rows + [r]) }

  function MoveIn(s: Store, id: nat): Store { s.(dirs := s.dirs + {id}) }

  function Complete(s: Store, id: nat): Store
    requires id < |s.rows|
  {
    s.(rows := s.rows[id := s.rows[id].(status := Completed, hasPath := true)])
  }

  function SetFailed(s: Store, id: nat): Store
    requires id < |s.rows|
  {
    s.(rows := s.rows[id := s.rows[id].(status := Failed)])
  }

  function RemoveDir(s: Store, id: nat): Store { s.(dirs := s.dirs - {id}) }

  /** The retention limit a manual backup runs with. */
  function ManualLimit(c: Config, q: Request): int {
    if q.adminOverride then c.envMax else MaxManual(q.plan)
  }

  /** What the create call deletes once backup `id` is completed. */
  function Retired(rows: seq<Row>, c: Config, q: Request, id: nat): seq<nat> {
    match q.trigger
    case Schedule => PreviousAutos(rows, q.hosting, Some(id))
    case Manual => ExcessManuals(rows, q.hosting, ManualLimit(c, q))
    case _ => []
  }

  /** Where create throws: while building, after the files were moved (writing the
      completed row included), or in the SELECT of the retention cleanup. */
  datatype Throw = NoThrow | Building | Moved | Selecting

  /** The except handler: it may throw itself, and then nothing is undone. */
  function Handle(s: Store, id: nat, handlerThrows: bool): (Store, Outcome)
    requires id < |s.rows|
  {
    if handlerThrows then (s, Raised(id)) else (RemoveDir(SetFailed(s, id), id), FailedWith(id))
  }

  function Create(s: Store, c: Config, q: Request, now: int, t: Throw, handlerThrows: bool, f: nat -> Fault)
    : (Store, Outcome)
  {
    match Refusal(s.rows, c, q)
    case Some(r) => (s, r)
    case None =>
      var id := |s.rows|;
      var s1 := Insert(s, NewRow(c, q, now));
      if t.Building? then Handle(s1, id, handlerThrows)
      else if t.Moved? then Handle(MoveIn(s1, id), id, handlerThrows)
      else
        var s2 := Complete(MoveIn(s1, id), id);
        if t.Selecting? && !Internal(q.trigger) then Handle(s2, id, handlerThrows)
        else (Purge(s2, Elems(Retired(s2.rows, c, q, id)), f), Done(id))
  }

  // --------------------------------------------------------- delete and protect

  datatype Deletion = Removed | NoSuchBackup | IsProtected | DeleteRaised

  /** `user` is None for an admin. */
  function Delete(s: Store, id: nat, user: Option<nat>, t: Fault): (Store, Deletion) {
    if id >= |s.rows| || (user.Some? && s.rows[id].user != user.value) then (s, NoSuchBackup)
    else if s.rows[id].protected then (s, IsProtected)
    else (Purge(s, {id}, (i: nat) => t), if t.NoFault? then Removed else DeleteRaised)
  }

  function Protect(s: Store, id: nat, on: bool): Store {
    if id < |s.rows| then s.(rows := s.rows[id := s.rows[id].(protected := on)]) else s
  }

  // --------------------------------------------------------- the periodic sweep

  /** An older automatic backup: a newer completed one of the same hosting exists. */
  predicate Superseded(rows: seq<Row>, i: nat) {
    i < |rows| && AutoFree(rows[i], rows[i].hosting)
    && exists j :: i < j < |rows| && Auto(rows[j], rows[i].hosting)
  }

  /** An excess manual backup: at least `limit` newer ones of the same hosting exist. */
  predicate Crowded(rows: seq<Row>, limit: int, i: nat) {
    i < |rows| && 0 < limit && ManualFree(rows[i], rows[i].hosting)
    && limit <= |FreeManuals(rows[i + 1..], rows[i].hosting)|
  }

  /** Everything one retention sweep deletes. */
  function SweepIds(rows: seq<Row>, now: int, limit: int): set<nat> {
    set i: nat | i < |rows| && (Expired(rows[i], now) || Superseded(rows, i) || Crowded(rows, limit, i))
  }

  /** Only internal snapshots ever expire. */
  ghost predicate KeptNeverExpire(rows: seq<Row>) {
    forall i :: 0 <= i < |rows| && rows[i].expires.Some? ==> Internal(rows[i].trigger)
  }

  /** SELECT DISTINCT hosting_id ... WHERE p. */
  function Hostings(rows: seq<Row>, p: Row -> bool): (hs: seq<nat>)
    ensures forall i :: 0 <= i < |rows| && p(rows[i]) ==> rows[i].hosting in hs
    ensures forall m, n :: 0 <= m < n < |hs| ==> hs[m] != hs[n]
  {
    if rows == [] then []
    else
      var n := |rows| - 1;
      var hs := Hostings(rows[..n], p);
      assert forall i :: 0 <= i < n ==> rows[..n][i] == rows[i];
      if p(rows[n]) && rows[n].hosting !in hs then hs + [rows[n].hosting] else hs
  }

  // ------------------------------------------------- the sweep, one hosting at a time

  lemma {:induction false} NewestAgree(rows: seq<Row>, rows': seq<Row>, p: Row -> bool)
    requires |rows| == |rows'| && forall i :: 0 <= i < |rows| ==> p(rows[i]) == p(rows'[i])
    ensures Newest(rows, p) == Newest(rows', p)
  {
    if rows != [] {
      var n := |rows| - 1;
      NewestAgree(rows[..n], rows'[..n], p);
    }
  }

  /** Deleting rows a query does not select does not change its answer. */
  lemma PurgeKeepsQuery(s: Store, d: set<nat>, f: nat -> Fault, p: Row -> bool)
    requires forall i: nat :: i in d && i < |s.rows| ==> !p(s.rows[i]) && !p(s.rows[i].(status := Deleted))
    ensures Newest(Purge(s, d, f).rows, p) == Newest(s.rows, p)
  {
    NewestAgree(s.rows, Purge(s, d, f).rows, p);
  }

  function SupersededIn(rows: seq<Row>, hs: seq<nat>): set<nat> {
    set i: nat | i < |rows| && Superseded(rows, i) && rows[i].hosting in hs
  }

  function CrowdedIn(rows: seq<Row>, limit: int, hs: seq<nat>): set<nat> {
    set i: nat | i < |rows| && Crowded(rows, limit, i) && rows[i].hosting in hs
  }

  /** Keeping the newest and deleting the other unprotected ones is deleting the superseded. */
  lemma SupersededOf(rows: seq<Row>, h: nat)
    ensures var ids := Autos(rows, h);
      SupersededIn(rows, [h]) == if |ids| > 1 then Elems(PreviousAutos(rows, h, Some(ids[0]))) else {}
  {
    var ids := Autos(rows, h);
    forall i | i in SupersededIn(rows, [h]) ensures |ids| > 1 && i < ids[0] && AutoFree(rows[i], h) {
      var j :| i < j < |rows| && Auto(rows[j], h);
      assert i in ids && j in ids;
    }
    if |ids| > 1 {
      assert ids[0] in ids;
      forall i | i in Elems(PreviousAutos(rows, h, Some(ids[0]))) ensures i in SupersededIn(rows, [h]) {
        assert i in ids && i < ids[0] && Auto(rows[ids[0]], h);
      }
    }
  }

  lemma NewestSnoc(rows: seq<Row>, r: Row, p: Row -> bool)
    ensures Newest(rows + [r], p) == (if p(r) then [|rows|] else []) + Newest(rows, p)
  {
    assert (rows + [r])[..|rows|] == rows;
  }

  /** A selected row stands behind exactly the selected rows newer than it. */
  lemma {:induction false} NewestRank(rows: seq<Row>, p: Row -> bool, i: nat)
    requires i < |rows| && p(rows[i])
    ensures var m := |Newest(rows[i + 1..], p)|; m < |Newest(rows, p)| && Newest(rows, p)[m] == i
    decreases |rows|
  {
    hide Newest;
    var n := |rows| - 1;
    assert rows == rows[..n] + [rows[n]];
    NewestSnoc(rows[..n], rows[n], p);
    if i < n {
      assert rows[..n][i + 1..] == rows[i + 1..n];
      NewestRank(rows[..n], p, i);
      assert rows[i + 1..] == rows[i + 1..n] + [rows[n]];
      NewestSnoc(rows[i + 1..n], rows[n], p);
    } else {
      assert rows[i + 1..] == [];
      NewestNone(p);
    }
  }

  lemma NewestNone(p: Row -> bool)
    ensures Newest([], p) == []
  {}

  lemma ExcessMember(rows: seq<Row>, limit: int, h: nat, i: nat)
    requires i < |rows| && ManualFree(rows[i], h) && 0 < limit
    ensures limit <= |FreeManuals(rows[i + 1..], h)| <==> i in ExcessManuals(rows, h, limit)
  {
    hide Newest;
    var ids := FreeManuals(rows, h);
    NewestRank(rows, IsManualFree(h), i);
    var m := |FreeManuals(rows[i + 1..], h)|;
    assert ids[m] == i;
    if limit <= m { assert ids[limit..][m - limit] == i; }
    if i in ExcessManuals(rows, h, limit) {
      var n :| 0 <= n < |ids| - limit && ids[limit..][n] == i;
      assert ids[limit + n] == i;
    }
  }

  lemma CrowdedOf(rows: seq<Row>, limit: int, h: nat)
    ensures CrowdedIn(rows, limit, [h]) == Elems(ExcessManuals(rows, h, limit))
  {
    forall i: nat | i < |rows| && ManualFree(rows[i], h) && 0 < limit
      ensures limit <= |FreeManuals(rows[i + 1..], h)| <==> i in ExcessManuals(rows, h, limit)
    {
      ExcessMember(rows, limit, h, i);
    }
    assert limit <= 0 ==> ExcessManuals(rows, h, limit) == [];
    hide ExcessManuals, Newest, FreeManuals;
  }

  lemma SupersededSnoc(rows: seq<Row>, hs: seq<nat>, h: nat)
    ensures SupersededIn(rows, hs + [h]) == SupersededIn(rows, hs) + SupersededIn(rows, [h])
  {}

  lemma CrowdedSnoc(rows: seq<Row>, limit: int, hs: seq<nat>, h: nat)
    ensures CrowdedIn(rows, limit, hs + [h]) == CrowdedIn(rows, limit, hs) + CrowdedIn(rows, limit, [h])
  {}

  function AllSuperseded(rows: seq<Row>): set<nat> { set i: nat | i < |rows| && Superseded(rows, i) }

  function AllCrowded(rows: seq<Row>, limit: int): set<nat> {
    set i: nat | i < |rows| && Crowded(rows, limit, i)
  }

  lemma NoHostings(rows: seq<Row>, limit: int)
    ensures SupersededIn(rows, []) == {} && CrowdedIn(rows, limit, []) == {}
  {}

  lemma AllOwners(rows: seq<Row>, limit: int, hs: seq<nat>)
    requires forall i :: 0 <= i < |rows| && rows[i].trigger.Manual? && rows[i].status.Completed? ==> rows[i].hosting in hs
    ensures CrowdedIn(rows, limit, hs) == AllCrowded(rows, limit)
  {}

  lemma AllMulti(rows: seq<Row>, hs: seq<nat>)
    requires forall i :: 0 <= i < |rows| && Superseded(rows, i) ==> rows[i].hosting in hs
    ensures SupersededIn(rows, hs) == AllSuperseded(rows)
  {}

  /** A superseded backup shares its hosting with another completed automatic one. */
  lemma SupersededIsMulti(rows: seq<Row>, i: nat)
    requires Superseded(rows, i)
    ensures rows[i].hosting in MultiHostings(rows)
  {
    var h := rows[i].hosting;
    var j :| i < j < |rows| && Auto(rows[j], h);
    assert i in Autos(rows, h) && j in Autos(rows, h);
    assert IsMulti(rows)(rows[i]);
  }

  lemma SupersededUnseen(s: Store, hs: seq<nat>, h: nat, f: nat -> Fault)
    requires h !in hs
    ensures var v := Purge(s, SupersededIn(s.rows, hs), f);
      Autos(v.rows, h) == Autos(s.rows, h) && FreeAutos(v.rows, h) == FreeAutos(s.rows, h)
  {
    hide Newest, Superseded;
    var e := SupersededIn(s.rows, hs);
    forall i: nat | i in e && i < |s.rows| ensures s.rows[i].hosting != h {}
    PurgeKeepsQuery(s, e, f, IsAuto(h));
    PurgeKeepsQuery(s, e, f, IsAutoFree(h));
  }

  /** One round of phase 2 sees the answers the queries had before the phase. */
  lemma SupersededRound(s: Store, hs: seq<nat>, h: nat, f: nat -> Fault)
    requires h !in hs
    ensures var v := Purge(s, SupersededIn(s.rows, hs), f);
      var ids := Autos(v.rows, h);
      (if |ids| > 1 then Purge(v, Elems(PreviousAutos(v.rows, h, Some(ids[0]))), f) else v)
        == Purge(s, SupersededIn(s.rows, hs + [h]), f)
      && |Cleared(SupersededIn(s.rows, hs + [h]), f)| == |Cleared(SupersededIn(s.rows, hs), f)|
           + if |ids| > 1 then |Cleared(Elems(PreviousAutos(v.rows, h, Some(ids[0]))), f)| else 0
  {
    SupersededUnseen(s, hs, h, f);
    var e, d := SupersededIn(s.rows, hs), SupersededIn(s.rows, [h]);
    assert e !! d;
    var v := Purge(s, e, f);
    hide Purge, Newest, Superseded, SupersededIn, Autos, FreeAutos, Elems, Cleared;
    SupersededOf(s.rows, h);
    SupersededSnoc(s.rows, hs, h);
    PurgeTwice(s, e, d, f);
    ClearedAdds(e, d, f);
    PurgeNone(v, f);
    assert Cleared({}, f) == {} by { ClearedNone(f); }
  }

  lemma CrowdedRound(s: Store, hs: seq<nat>, h: nat, limit: int, f: nat -> Fault)
    requires h !in hs
    ensures var v := Purge(s, CrowdedIn(s.rows, limit, hs), f);
      && Purge(v, Elems(ExcessManuals(v.rows, h, limit)), f) == Purge(s, CrowdedIn(s.rows, limit, hs + [h]), f)
      && |Cleared(CrowdedIn(s.rows, limit, hs + [h]), f)|
           == |Cleared(CrowdedIn(s.rows, limit, hs), f)| + |Cleared(Elems(ExcessManuals(v.rows, h, limit)), f)|
  {
    var e := CrowdedIn(s.rows, limit, hs);
    forall i: nat | i in e && i < |s.rows| ensures s.rows[i].hosting != h {}
    PurgeKeepsQuery(s, e, f, IsManualFree(h));
    hide Purge, Newest, Crowded;
    CrowdedOf(s.rows, limit, h);
    CrowdedSnoc(s.rows, limit, hs, h);
    PurgeTwice(s, e, CrowdedIn(s.rows, limit, [h]), f);
    ClearedAdds(e, CrowdedIn(s.rows, limit, [h]), f);
  }

  /** The hostings with more than one completed automatic backup, and with a manual one. */
  function MultiHostings(rows: seq<Row>): seq<nat> { Hostings(rows, IsMulti(rows)) }

  function IsMulti(rows: seq<Row>): Row -> bool { (r: Row) => Auto(r, r.hosting) && |Autos(rows, r.hosting)| > 1 }

  function ManualHostings(rows: seq<Row>): seq<nat> {
    Hostings(rows, (r: Row) => r.trigger.Manual? && r.status.Completed?)
  }

  /** Which queries of a sweep raise: the TTL one, and the one that comes after so many
      hostings of phase 2 and of phase 3. */
  datatype Raises = Raises(ttl: bool, automatic: Option<nat>, manual: Option<nat>)

  datatype Summary = Summary(ttl: nat, automatic: nat, manual: nat, errors: nat)

  predicate RaisesIn(hs: seq<nat>, raise: Option<nat>) {
    raise.Some? && (raise.value == 0 || raise.value < |hs|)
  }

  function Reached(hs: seq<nat>, raise: Option<nat>): seq<nat> {
    if RaisesIn(hs, raise) then hs[..raise.value] else hs
  }

  predicate SweepRaises(rows: seq<Row>, z: Raises) {
    z.ttl || RaisesIn(MultiHostings(rows), z.automatic) || RaisesIn(ManualHostings(rows), z.manual)
  }

  /** What a sweep deletes before its first query that raises. */
  function Swept(rows: seq<Row>, now: int, limit: int, z: Raises): set<nat> {
    if z.ttl then {}
    else
      Elems(ExpiredIds(rows, now))
      + SupersededIn(rows, Reached(MultiHostings(rows), z.automatic))
      + if RaisesIn(MultiHostings(rows), z.automatic) then {}
        else CrowdedIn(rows, limit, Reached(ManualHostings(rows), z.manual))
  }

  lemma {:induction false} HostingsAgree(rows: seq<Row>, rows': seq<Row>, p: Row -> bool, p': Row -> bool)
    requires |rows| == |rows'|
    requires forall i :: 0 <= i < |rows| ==> p(rows[i]) == p'(rows'[i]) && rows[i].hosting == rows'[i].hosting
    ensures Hostings(rows, p) == Hostings(rows', p')
  {
    if rows != [] {
      var n := |rows| - 1;
      HostingsAgree(rows[..n], rows'[..n], p, p');
    }
  }

  /** Deleting no automatic backup leaves phase 2 its answers; no manual one, phase 3. */
  lemma PhaseTwoKept(s: Store, d: set<nat>, f: nat -> Fault, hs: seq<nat>)
    requires forall i :: i in d && i < |s.rows| ==> !s.rows[i].trigger.Schedule?
    ensures var v := Purge(s, d, f);
      MultiHostings(v.rows) == MultiHostings(s.rows) && SupersededIn(v.rows, hs) == SupersededIn(s.rows, hs)
  {
    var v := Purge(s, d, f);
    forall i: nat | i < |s.rows| ensures IsMulti(s.rows)(s.rows[i]) == IsMulti(v.rows)(v.rows[i]) {
      PurgeKeepsQuery(s, d, f, IsAuto(s.rows[i].hosting));
    }
    HostingsAgree(s.rows, v.rows, IsMulti(s.rows), IsMulti(v.rows));
    SupersededKept(s, d, f);
    forall i: nat | i < |s.rows| ensures Superseded(v.rows, i) <==> Superseded(s.rows, i) {
      assert i in AllSuperseded(v.rows) <==> i in AllSuperseded(s.rows);
    }
    hide Superseded;
  }

  lemma PhaseThreeKept(s: Store, d: set<nat>, f: nat -> Fault, limit: int, hs: seq<nat>)
    requires forall i :: i in d && i < |s.rows| ==> !s.rows[i].trigger.Manual?
    ensures var v := Purge(s, d, f);
      ManualHostings(v.rows) == ManualHostings(s.rows) && CrowdedIn(v.rows, limit, hs) == CrowdedIn(s.rows, limit, hs)
  {
    var v := Purge(s, d, f);
    var p := (r: Row) => r.trigger.Manual? && r.status.Completed?;
    HostingsAgree(s.rows, v.rows, p, p);
    CrowdedKept(s, d, f, limit);
    forall i: nat | i < |s.rows| ensures Crowded(v.rows, limit, i) <==> Crowded(s.rows, limit, i) {
      assert i in AllCrowded(v.rows, limit) <==> i in AllCrowded(s.rows, limit);
    }
    hide Crowded;
  }

  /** The TTL phase touches no row the other two look at, the second none of the third's; so
      the phases, as far as they get, add up to one set of deletions. */
  lemma SweptAdds(s: Store, now: int, limit: int, z: Raises, f: nat -> Fault)
    requires KeptNeverExpire(s.rows)
    ensures var d := Elems(ExpiredIds(s.rows, now));
      var s1 := Purge(s, d, f);
      var e := SupersededIn(s1.rows, Reached(MultiHostings(s1.rows), z.automatic));
      var s2 := Purge(s1, e, f);
      var g := CrowdedIn(s2.rows, limit, Reached(ManualHostings(s2.rows), z.manual));
      var stops := RaisesIn(MultiHostings(s1.rows), z.automatic);
      && (SweepRaises(s.rows, z) <==> z.ttl || stops || RaisesIn(ManualHostings(s2.rows), z.manual))
      && Purge(s, Swept(s.rows, now, limit, z), f) == (if z.ttl then s else if stops then s2 else Purge(s2, g, f))
      && (!z.ttl && !stops ==>
        |Cleared(Swept(s.rows, now, limit, z), f)| == |Cleared(d, f)| + |Cleared(e, f)| + |Cleared(g, f)|)
  {
    var d := Elems(ExpiredIds(s.rows, now));
    var e := SupersededIn(s.rows, Reached(MultiHostings(s.rows), z.automatic));
    var g := CrowdedIn(s.rows, limit, Reached(ManualHostings(s.rows), z.manual));
    PhaseSets(s.rows, now, limit, Reached(MultiHostings(s.rows), z.automatic), Reached(ManualHostings(s.rows), z.manual));
    PhaseTwoKept(s, d, f, Reached(MultiHostings(s.rows), z.automatic));
    PhaseThreeKept(s, d + e, f, limit, Reached(ManualHostings(s.rows), z.manual));
    hide Purge, SupersededIn, CrowdedIn, MultiHostings, ManualHostings, Elems, Cleared;
    PurgeTwice(s, d, e, f);
    PurgeTwice(s, d + e, g, f);
    PurgeNone(s, f);
    ClearedAdds(d, e, f);
    ClearedAdds(d + e, g, f);
    assert d + e + {} == d + e;
  }

  lemma PhaseSets(rows: seq<Row>, now: int, limit: int, hs: seq<nat>, os: seq<nat>)
    requires KeptNeverExpire(rows)
    ensures var d, e, g := Elems(ExpiredIds(rows, now)), SupersededIn(rows, hs), CrowdedIn(rows, limit, os);
      && d !! e && (d + e) !! g
      && (forall i :: i in d && i < |rows| ==> !rows[i].trigger.Schedule?)
      && (forall i :: i in d + e && i < |rows| ==> !rows[i].trigger.Manual?)
  {
    PhaseTriggers(rows, now, limit);
    assert SupersededIn(rows, hs) <= AllSuperseded(rows) && CrowdedIn(rows, limit, os) <= AllCrowded(rows, limit);
    hide Superseded, Crowded, Elems;
  }

  /** Without a raising query the sweep deletes everything it should; with one, a part of it. */
  lemma SweptIsSweep(rows: seq<Row>, now: int, limit: int, z: Raises)
    ensures Swept(rows, now, limit, z) <= SweepIds(rows, now, limit)
    ensures !SweepRaises(rows, z) ==> Swept(rows, now, limit, z) == SweepIds(rows, now, limit)
  {
    forall i: nat | Superseded(rows, i) ensures rows[i].hosting in MultiHostings(rows) {
      SupersededIsMulti(rows, i);
    }
    AllMulti(rows, MultiHostings(rows));
    AllOwners(rows, limit, ManualHostings(rows));
    assert forall i: nat :: i in Elems(ExpiredIds(rows, now)) <==> i < |rows| && Expired(rows[i], now);
    hide Superseded, Crowded, Hostings, Newest, Elems;
  }

  /** The length of a list without repetition. */
  lemma {:induction false} ListSize(ids: seq<nat>, f: nat -> Fault)
    requires Descending(ids)
    ensures |Elems(ids)| == |ids| && |Cleared(Elems(ids), f)| <= |ids|
  {
    if ids != [] {
      ListSize(ids[1..], f);
      assert Elems(ids) == {ids[0]} + Elems(ids[1..]);
      ClearedAdds({ids[0]}, Elems(ids[1..]), f);
      assert Cleared({ids[0]}, f) <= {ids[0]};
      assert |Cleared({ids[0]}, f)| <= 1 by {
        if f(ids[0]).NoFault? { assert Cleared({ids[0]}, f) == {ids[0]}; } else { assert Cleared({ids[0]}, f) == {}; }
      }
    }
  }

  lemma PhaseTriggers(rows: seq<Row>, now: int, limit: int)
    requires KeptNeverExpire(rows)
    ensures forall i: nat :: i in Elems(ExpiredIds(rows, now)) <==> i < |rows| && Expired(rows[i], now)
    ensures forall i :: i in Elems(ExpiredIds(rows, now)) && i < |rows| ==> Internal(rows[i].trigger)
    ensures forall i :: i in AllSuperseded(rows) ==> i < |rows| && rows[i].trigger.Schedule?
    ensures forall i :: i in AllCrowded(rows, limit) ==> i < |rows| && rows[i].trigger.Manual?
  {}

  lemma SupersededKept(s: Store, d: set<nat>, f: nat -> Fault)
    requires forall i :: i in d && i < |s.rows| ==> !s.rows[i].trigger.Schedule?
    ensures AllSuperseded(Purge(s, d, f).rows) == AllSuperseded(s.rows)
  {
    var rows := Purge(s, d, f).rows;
    forall i: nat | i < |rows| ensures Superseded(rows, i) <==> Superseded(s.rows, i) {
      assert forall j, h: nat :: 0 <= j < |rows| ==> Auto(rows[j], h) == Auto(s.rows[j], h);
    }
  }

  lemma CrowdedKept(s: Store, d: set<nat>, f: nat -> Fault, limit: int)
    requires forall i :: i in d && i < |s.rows| ==> !s.rows[i].trigger.Manual?
    ensures AllCrowded(Purge(s, d, f).rows, limit) == AllCrowded(s.rows, limit)
  {
    var rows := Purge(s, d, f).rows;
    forall i: nat | i < |rows| ensures Crowded(rows, limit, i) <==> Crowded(s.rows, limit, i) {
      NewestAgree(s.rows[i + 1..], rows[i + 1..], IsManualFree(s.rows[i].hosting));
    }
  }

  // --------------------------------------------------------------- the service

  class Backups {
    var rows: seq<Row>
    var dirs: set<nat>

    function Snapshot(): Store
      reads this
    {
      Store(rows, dirs)
    }

    constructor ()
      ensures Snapshot() == Store([], {})
    {
      rows, dirs := [], {};
    }

    /** The loop the three cleanups share; a throw skips to the next backup. */
    method PurgeAll(ids: seq<nat>, f: nat -> Fault) returns (deleted: nat)
      requires Descending(ids) && forall i :: i in ids ==> i < |rows|
      modifies this
      ensures Snapshot() == Purge(old(Snapshot()), Elems(ids), f)
      ensures deleted == |Cleared(Elems(ids), f)|
    {
      hide Purge, Cleared;
      ghost var s := Snapshot();
      deleted := 0;
      var k := 0;
      assert Elems(ids[..0]) == {};
      assert Cleared({}, f) == {} by { ClearedNone(f); }
      PurgeNone(s, f);
      while k < |ids|
        invariant k <= |ids|
        invariant |rows| == |s.rows|
        invariant Snapshot() == Purge(s, Elems(ids[..k]), f)
        invariant deleted == |Cleared(Elems(ids[..k]), f)|
      {
        var i := ids[k];
        assert i in ids;
        PurgeRound(s, ids, k, f);
        if !f(i).BeforeFiles? {
          if rows[i].hasPath { dirs := dirs - {i}; }
          if f(i).NoFault? {
            rows := rows[i := rows[i].(status := Deleted)];
            deleted := deleted + 1;
          }
        }
        k := k + 1;
      }
      assert ids[..k] == ids;
    }

    method CleanupAutomaticPrevious(h: nat, keep: Option<nat>, f: nat -> Fault) returns (deleted: nat)
      modifies this
      ensures Snapshot() == Purge(old(Snapshot()), Elems(PreviousAutos(old(rows), h, keep)), f)
      ensures deleted == |Cleared(Elems(PreviousAutos(old(rows), h, keep)), f)|
    {
      deleted := PurgeAll(PreviousAutos(rows, h, keep), f);
    }

    method CleanupManualExcess(h: nat, limit: int, f: nat -> Fault) returns (deleted: nat)
      modifies this
      ensures Snapshot() == Purge(old(Snapshot()), Elems(ExcessManuals(old(rows), h, limit)), f)
      ensures deleted == |Cleared(Elems(ExcessManuals(old(rows), h, limit)), f)|
    {
      deleted := PurgeAll(ExcessManuals(rows, h, limit), f);
    }

    method CleanupExpiredTtl(now: int, f: nat -> Fault) returns (deleted: nat)
      modifies this
      ensures Snapshot() == Purge(old(Snapshot()), Elems(ExpiredIds(old(rows), now)), f)
      ensures deleted == |Cleared(Elems(ExpiredIds(old(rows), now)), f)|
    {
      deleted := PurgeAll(ExpiredIds(rows, now), f);
    }

    method CreateTenantBackup(c: Config, q: Request, now: int, t: Throw, handlerThrows: bool, f: nat -> Fault)
      returns (r: Outcome)
      modifies this
      ensures (Snapshot(), r) == Create(old(Snapshot()), c, q, now, t, handlerThrows, f)
    {
      var refusal := Refusal(rows, c, q);
      if refusal.Some? { return refusal.value; }
      var id := |rows|;
      rows := rows + [NewRow(c, q, now)];
      var failed := t.Building?;
      if !failed {
        dirs := dirs + {id};
        failed := t.Moved?;
      }
      if !failed {
        rows := rows[id := rows[id].(status := Completed, hasPath := true)];
        failed := t.Selecting? && !Internal(q.trigger);
      }
      if failed {
        if handlerThrows { return Raised(id); }
        rows := rows[id := rows[id].(status := Failed)];
        dirs := dirs - {id};
        return FailedWith(id);
      }
      var n := PurgeAll(Retired(rows, c, q, id), f);
      return Done(id);
    }

    method DeleteTenantBackup(id: nat, user: Option<nat>, t: Fault) returns (r: Deletion)
      modifies this
      ensures (Snapshot(), r) == Delete(old(Snapshot()), id, user, t)
    {
      if id >= |rows| || (user.Some? && rows[id].user != user.value) { return NoSuchBackup; }
      if rows[id].protected { return IsProtected; }
      ghost var before := Snapshot();
      if !t.BeforeFiles? {
        if rows[id].hasPath { dirs := dirs - {id}; }
        if t.NoFault? { rows := rows[id := rows[id].(status := Deleted)]; }
      }
      assert Snapshot() == Purge(before, {id}, (i: nat) => t);
      return if t.NoFault? then Removed else DeleteRaised;
    }

    method SetProtected(id: nat, on: bool) returns (found: bool)
      modifies this
      ensures Snapshot() == Protect(old(Snapshot()), id, on)
      ensures found == (id < |old(rows)|)
    {
      if id >= |rows| { return false; }
      rows := rows[id := rows[id].(protected := on)];
      return true;
    }

    /** Phase 2 of the sweep: latest_only, hosting by hosting; false when a query raised. */
    method SweepAutomatic(f: nat -> Fault, raise: Option<nat>) returns (ok: bool, deleted: nat)
      modifies this
      ensures ok <==> !RaisesIn(MultiHostings(old(rows)), raise)
      ensures Snapshot() == Purge(old(Snapshot()), SupersededIn(old(rows), Reached(MultiHostings(old(rows)), raise)), f)
      ensures deleted == |Cleared(SupersededIn(old(rows), Reached(MultiHostings(old(rows)), raise)), f)|
    {
      hide Purge, Newest, Autos, PreviousAutos, SupersededIn, Hostings, Cleared;
      ghost var s := Snapshot();
      deleted := 0;
      NoHostings(s.rows, 0);
      PurgeNone(s, f);
      ClearedNone(f);
      var multi := MultiHostings(rows);
      assert multi[..0] == [];
      if raise == Some(0) { return false, 0; }
      var k := 0;
      while k < |multi|
        invariant k <= |multi| && (raise.Some? ==> k <= raise.value)
        invariant Snapshot() == Purge(s, SupersededIn(s.rows, multi[..k]), f)
        invariant deleted == |Cleared(SupersededIn(s.rows, multi[..k]), f)|
      {
        if raise == Some(k) { return false, deleted; }
        var h := multi[k];
        SupersededRound(s, multi[..k], h, f);
        assert multi[..k + 1] == multi[..k] + [h];
        var bids := Autos(rows, h);
        if |bids| > 1 {
          var n := CleanupAutomaticPrevious(h, Some(bids[0]), f);
          deleted := deleted + n;
        }
        k := k + 1;
      }
      assert multi[..k] == multi;
      ok := true;
    }

    /** Phase 3 of the sweep: the manual limit, hosting by hosting; false when a query raised. */
    method SweepManual(limit: int, f: nat -> Fault, raise: Option<nat>) returns (ok: bool, deleted: nat)
      modifies this
      ensures ok <==> !RaisesIn(ManualHostings(old(rows)), raise)
      ensures Snapshot() == Purge(old(Snapshot()), CrowdedIn(old(rows), limit, Reached(ManualHostings(old(rows)), raise)), f)
      ensures deleted == |Cleared(CrowdedIn(old(rows), limit, Reached(ManualHostings(old(rows)), raise)), f)|
    {
      hide Purge, Newest, ExcessManuals, CrowdedIn, Hostings, Cleared;
      ghost var s := Snapshot();
      deleted := 0;
      NoHostings(s.rows, limit);
      PurgeNone(s, f);
      ClearedNone(f);
      var owners := ManualHostings(rows);
      assert owners[..0] == [];
      if raise == Some(0) { return false, 0; }
      var k := 0;
      while k < |owners|
        invariant k <= |owners| && (raise.Some? ==> k <= raise.value)
        invariant Snapshot() == Purge(s, CrowdedIn(s.rows, limit, owners[..k]), f)
        invariant deleted == |Cleared(CrowdedIn(s.rows, limit, owners[..k]), f)|
      {
        if raise == Some(k) { return false, deleted; }
        var h := owners[k];
        CrowdedRound(s, owners[..k], h, limit, f);
        assert owners[..k + 1] == owners[..k] + [h];
        var n := CleanupManualExcess(h, limit, f);
        deleted := deleted + n;
        k := k + 1;
      }
      assert owners[..k] == owners;
      ok := true;
    }

    /** The whole sweep; None when a query raised.  Three phases, each with its own queries,
        add up to one set of deletions, and the counters to the rows marked; `errors` counts
        the expired backups that were not. */
    method CleanupBackupRetention(now: int, limit: int, f: nat -> Fault, z: Raises) returns (r: Option<Summary>)
      requires KeptNeverExpire(rows)
      modifies this
      ensures r.None? <==> SweepRaises(old(rows), z)
      ensures Snapshot() == Purge(old(Snapshot()), Swept(old(rows), now, limit, z), f)
      ensures r.Some? ==>
        r.value.ttl + r.value.automatic + r.value.manual == |Cleared(Swept(old(rows), now, limit, z), f)|
      ensures r.Some? ==>
        r.value.errors == |Elems(ExpiredIds(old(rows), now))| - |Cleared(Elems(ExpiredIds(old(rows), now)), f)|
    {
      SweptAdds(Snapshot(), now, limit, z, f);
      if z.ttl { return None; }
      var expired := ExpiredIds(rows, now);
      ListSize(expired, f);
      var ttl := PurgeAll(expired, f);
      hide *;
      var ok, automatic := SweepAutomatic(f, z.automatic);
      if !ok { return None; }
      var manual;
      ok, manual := SweepManual(limit, f, z.manual);
      if !ok { return None; }
      return Some(Summary(ttl, automatic, manual, |expired| - ttl));
    }
  }
}
