/** The backup service one transaction or directory move at a time: jobs of several
    processes interleave, and any of them may throw or die between any two steps.
    As long as no hosting has two jobs at once, its newest completed automatic backup has
    its files on disk, and a hosting that had a good automatic backup keeps one. */
module BackupProtocol {
  import opened Prelude
  import opened BackupStore

  /** How far a call has come.  The create call goes from Checked to Finished, then into
      Purging; its except handler is Handling, Undoing.  The sweep reads the id to keep
      (Keeping) before it selects what to delete.  Marking: files of `i` gone, row not yet.
      A purge of expired rows has no hosting. */
  datatype Job =
    | Checked(h: nat, row: Row, limit: int)
    | Building(h: nat, id: nat, limit: int)
    | Moved(h: nat, id: nat, limit: int)
    | Finished(h: nat, id: nat, limit: int)
    | Handling(h: nat, id: nat)
    | Undoing(h: nat, id: nat)
    | Keeping(h: nat, keep: nat)
    | Purging(scope: Option<nat>, todo: set<nat>)
    | Marking(scope: Option<nat>, todo: set<nat>, i: nat)

  function Scope(j: Job): Option<nat> {
    match j
    case Purging(scope, _) => scope
    case Marking(scope, _, _) => scope
    case _ => Some(j.h)
  }

  datatype World = World(s: Store, jobs: map<nat, Job>)

  /** A new job has made its first query. */
  datatype Kind =
    | Create(c: Config, q: Request, now: int)
    | Sweep(h: nat)
    | AdminPrevious(h: nat)
    | ManualExcess(h: nat, limit: int)
    | ExpiredTtl(now: int)

  function Begin(s: Store, k: Kind): Option<Job> {
    match k
    case Create(c, q, now) =>
      if Refusal(s.rows, c, q).Some? then None
      else Some(Checked(q.hosting, NewRow(c, q, now), ManualLimit(c, q)))
    case Sweep(h) =>
      var ids := Autos(s.rows, h);
      if |ids| > 1 then Some(Keeping(h, ids[0])) else None
    case AdminPrevious(h) => Some(Purging(Some(h), Elems(PreviousAutos(s.rows, h, None))))
    case ManualExcess(h, limit) => Some(Purging(Some(h), Elems(ExcessManuals(s.rows, h, limit))))
    case ExpiredTtl(now) => Some(Purging(None, Elems(ExpiredIds(s.rows, now))))
  }

  /** Go is the next step as written; Raise is a throw in it. */
  datatype Move = Go | Files(i: nat) | Raise | RaiseFiles(i: nat) | Crash

  function MarkDeleted(s: Store, i: nat): Store {
    if i < |s.rows| then s.(rows := s.rows[i := s.rows[i].(status := Deleted)]) else s
  }

  function Retire(rows: seq<Row>, j: Job): set<nat>
    requires j.Finished? && j.id < |rows|
  {
    var t := rows[j.id].trigger;
    if t.Schedule? then Elems(PreviousAutos(rows, j.h, Some(j.id)))
    else if t.Manual? then Elems(ExcessManuals(rows, j.h, j.limit))
    else {}
  }

  function Act(s: Store, j: Job, m: Move): (Store, Option<Job>) {
    match m
    case Crash => (s, None)
    case Files(i) =>
      if j.Purging? && i in j.todo
      then (if i < |s.rows| && s.rows[i].hasPath then RemoveDir(s, i) else s, Some(Marking(j.scope, j.todo - {i}, i)))
      else (s, Some(j))
    case RaiseFiles(i) =>
      if j.Purging? then (s, Some(Purging(j.scope, j.todo - {i}))) else (s, Some(j))
    case Raise =>
      (match j
       case Building(h, id, _) => (s, Some(Handling(h, id)))
       case Moved(h, id, _) => (s, Some(Handling(h, id)))
       case Finished(h, id, _) => (s, Some(Handling(h, id)))
       case Marking(scope, todo, _) => (s, Some(Purging(scope, todo)))
       case Purging(_, _) => (s, Some(j))
       case _ => (s, None))
    case Go =>
      (match j
       case Checked(h, row, limit) => (Insert(s, row), Some(Job.Building(h, |s.rows|, limit)))
       case Building(h, id, limit) => (MoveIn(s, id), Some(Job.Moved(h, id, limit)))
       case Moved(h, id, limit) => if id < |s.rows| then (Complete(s, id), Some(Finished(h, id, limit))) else (s, None)
       case Finished(h, id, _) => if id < |s.rows| then (s, Some(Purging(Some(h), Retire(s.rows, j)))) else (s, None)
       case Handling(h, id) => if id < |s.rows| then (SetFailed(s, id), Some(Undoing(h, id))) else (s, None)
       case Undoing(h, id) => (RemoveDir(s, id), None)
       case Keeping(h, keep) => (s, Some(Purging(Some(h), Elems(PreviousAutos(s.rows, h, Some(keep))))))
       case Purging(_, todo) => (s, if todo == {} then None else Some(j))
       case Marking(scope, todo, i) => (MarkDeleted(s, i), Some(Purging(scope, todo))))
  }

  datatype Event = Start(p: nat, k: Kind) | Do(p: nat, m: Move) | SetProtected(i: nat, on: bool)

  function Put(jobs: map<nat, Job>, p: nat, j: Option<Job>): map<nat, Job> {
    if j.Some? then jobs[p := j.value] else jobs - {p}
  }

  function Step(w: World, e: Event): World {
    match e
    case Start(p, k) =>
      if p in w.jobs then w else World(w.s, Put(w.jobs, p, Begin(w.s, k)))
    case Do(p, m) =>
      if p !in w.jobs then w
      else var (s, j) := Act(w.s, w.jobs[p], m); World(s, Put(w.jobs, p, j))
    case SetProtected(i, on) => w.(s := Protect(w.s, i, on))
  }

  predicate Busy(w: World, h: nat) { exists p :: p in w.jobs && Scope(w.jobs[p]) == Some(h) }

  /** The discipline the code does not enforce: one job per hosting at a time. */
  predicate Allowed(w: World, e: Event) {
    e.Start? ==>
      match e.k
      case Create(_, q, _) => !Busy(w, q.hosting)
      case Sweep(h) => !Busy(w, h)
      case AdminPrevious(h) => !Busy(w, h)
      case ManualExcess(h, _) => !Busy(w, h)
      case ExpiredTtl(_) => true
  }

  function Run(w: World, es: seq<Event>): World {
    if es == [] then w else Step(Run(w, es[..|es| - 1]), es[|es| - 1])
  }

  predicate AllAllowed(w: World, es: seq<Event>) {
    es == [] || (AllAllowed(w, es[..|es| - 1]) && Allowed(Run(w, es[..|es| - 1]), es[|es| - 1]))
  }

  // ------------------------------------------------------------------- invariant

  predicate Ours(r: Row, h: nat) { r.hosting == h && r.trigger.Schedule? }

  /** Row i is the newest completed automatic backup of h among the first n rows. */
  predicate Head(rows: seq<Row>, n: nat, h: nat, i: nat) {
    i < n <= |rows| && Auto(rows[i], h) && forall j :: i < j < n ==> !Auto(rows[j], h)
  }

  ghost predicate HeadFiled(s: Store, n: nat, h: nat) { forall i: nat :: Head(s.rows, n, h, i) ==> i in s.dirs }

  predicate Passed(rows: seq<Row>, h: nat, x: nat) { exists j :: x < j < |rows| && Auto(rows[j], h) }

  /** May be deleted: an automatic backup only by a job of its hosting, and only when a
      newer one is completed. */
  predicate Doomed(s: Store, scope: Option<nat>, x: nat) {
    x < |s.rows| && (s.rows[x].trigger.Schedule? ==>
                       scope == Some(s.rows[x].hosting) && Passed(s.rows, s.rows[x].hosting, x))
  }

  /** The row of a create call in flight: the last automatic row of its hosting, with a
      filed head below it. */
  ghost predicate InFlight(s: Store, h: nat, id: nat) {
    && id < |s.rows| && s.rows[id].hosting == h
    && (s.rows[id].trigger.Schedule? ==>
          && (forall j :: id < j < |s.rows| ==> !Ours(s.rows[j], h))
          && HeadFiled(s, id, h))
  }

  ghost predicate JobOk(s: Store, j: Job) {
    match j
    case Checked(h, row, _) =>
      row.hosting == h && row.status.Running? && (row.expires.Some? ==> Internal(row.trigger))
    case Building(h, id, _) => InFlight(s, h, id) && (s.rows[id].trigger.Schedule? ==> s.rows[id].status.Running?)
    case Moved(h, id, _) =>
      InFlight(s, h, id) && (s.rows[id].trigger.Schedule? ==> s.rows[id].status.Running? && id in s.dirs)
    case Finished(h, id, _) =>
      InFlight(s, h, id) && (s.rows[id].trigger.Schedule? ==> id in s.dirs && s.rows[id].status.Completed?)
    case Handling(h, id) => InFlight(s, h, id)
    case Undoing(h, id) =>
      id < |s.rows| && s.rows[id].hosting == h && (s.rows[id].trigger.Schedule? ==> !s.rows[id].status.Completed?)
    case Keeping(h, keep) => Head(s.rows, |s.rows|, h, keep)
    case Purging(scope, todo) => forall x :: x in todo ==> Doomed(s, scope, x)
    case Marking(scope, todo, i) => forall x :: x in todo + {i} ==> Doomed(s, scope, x)
  }

  ghost predicate StoreOk(s: Store) {
    KeptNeverExpire(s.rows) && forall h: nat :: HeadFiled(s, |s.rows|, h)
  }

  ghost predicate Inv(w: World) {
    && StoreOk(w.s)
    && (forall p :: p in w.jobs ==> JobOk(w.s, w.jobs[p]))
    && (forall p, q :: p in w.jobs && q in w.jobs && p != q && Scope(w.jobs[p]).Some? ==>
          Scope(w.jobs[p]) != Scope(w.jobs[q]))
  }

  /** The automatic backups of h look the same in both stores. */
  ghost predicate Same(s: Store, s': Store, h: nat) {
    && |s.rows| <= |s'.rows|
    && (forall i :: |s.rows| <= i < |s'.rows| ==> !Ours(s'.rows[i], h))
    && (forall i :: 0 <= i < |s.rows| ==>
          && s'.rows[i].hosting == s.rows[i].hosting && s'.rows[i].trigger == s.rows[i].trigger
          && (Ours(s.rows[i], h) ==> s'.rows[i].status == s.rows[i].status && (i in s.dirs <==> i in s'.dirs)))
  }

  lemma SameHeads(s: Store, s': Store, h: nat, n: nat)
    requires Same(s, s', h) && n <= |s.rows| && HeadFiled(s, n, h)
    ensures HeadFiled(s', n, h)
    ensures n == |s.rows| ==> HeadFiled(s', |s'.rows|, h)
  {
    forall i: nat | Head(s'.rows, n, h, i) ensures i in s'.dirs {
      assert Ours(s.rows[i], h) && Head(s.rows, n, h, i);
    }
    forall i: nat | n == |s.rows| && Head(s'.rows, |s'.rows|, h, i) ensures i in s'.dirs {
      assert Ours(s'.rows[i], h);
      assert Ours(s.rows[i], h) && Head(s.rows, n, h, i);
    }
  }

  lemma SamePassed(s: Store, s': Store, h: nat, x: nat)
    requires Same(s, s', h) && Passed(s.rows, h, x)
    ensures Passed(s'.rows, h, x)
  {
    var j :| x < j < |s.rows| && Auto(s.rows[j], h);
    assert Ours(s.rows[j], h) && Auto(s'.rows[j], h);
  }

  /** A job is not disturbed by changes to other hostings' automatic backups. */
  lemma JobOkFrame(s: Store, s': Store, j: Job)
    requires JobOk(s, j) && |s.rows| <= |s'.rows|
    requires forall i :: 0 <= i < |s.rows| ==>
      s'.rows[i].hosting == s.rows[i].hosting && s'.rows[i].trigger == s.rows[i].trigger
    requires Scope(j).Some? ==> Same(s, s', Scope(j).value)
    ensures JobOk(s', j)
  {
    if j.Purging? || j.Marking? {
      var todo := if j.Purging? then j.todo else j.todo + {j.i};
      forall x | x in todo ensures Doomed(s', j.scope, x) {
        assert Doomed(s, j.scope, x);
        if s.rows[x].trigger.Schedule? { SamePassed(s, s', s.rows[x].hosting, x); }
      }
    } else if j.Building? || j.Moved? || j.Finished? || j.Handling? {
      InFlightFrame(s, s', j.h, j.id);
    }
  }

  lemma InFlightFrame(s: Store, s': Store, h: nat, id: nat)
    requires InFlight(s, h, id) && Same(s, s', h)
    ensures InFlight(s', h, id)
    ensures Ours(s.rows[id], h) ==> s'.rows[id].status == s.rows[id].status && (id in s.dirs <==> id in s'.dirs)
  {
    if s.rows[id].trigger.Schedule? { SameHeads(s, s', h, id); }
  }

  /** What one step of one job owes: its own store and job stay in order, and every other
      hosting's automatic backups stay as they are. */
  ghost predicate Sound(s: Store, j: Job, s': Store, j': Option<Job>) {
    && StoreOk(s')
    && |s.rows| <= |s'.rows|
    && (forall i :: 0 <= i < |s.rows| ==> s'.rows[i].hosting == s.rows[i].hosting && s'.rows[i].trigger == s.rows[i].trigger)
    && (forall h: nat :: Scope(j) != Some(h) ==> Same(s, s', h))
    && (j'.Some? ==> JobOk(s', j'.value) && Scope(j'.value) == Scope(j))
  }

  /** Changes that leave every completed automatic backup and every job's row alone. */
  lemma QuietStep(s: Store, s': Store)
    requires StoreOk(s) && KeptNeverExpire(s'.rows)
    requires forall h: nat :: Same(s, s', h)
    ensures StoreOk(s')
  {
    forall h: nat ensures HeadFiled(s', |s'.rows|, h) { SameHeads(s, s', h, |s.rows|); }
  }

  /** A head stays one when looking at fewer completed rows above it. */
  lemma HeadTransfer(rows': seq<Row>, n': nat, rows: seq<Row>, n: nat, g: nat, i: nat)
    requires Head(rows', n', g, i) && i < n <= |rows| && n <= n' && Auto(rows[i], g)
    requires forall j :: i < j < n && Auto(rows[j], g) ==> Auto(rows'[j], g)
    ensures Head(rows, n, g, i)
  {}

  lemma InsertSound(s: Store, h: nat, row: Row, limit: int)
    requires StoreOk(s) && JobOk(s, Checked(h, row, limit))
    ensures var (s', j') := Act(s, Checked(h, row, limit), Go); Sound(s, Checked(h, row, limit), s', j')
  {
    var s' := Insert(s, row);
    forall g: nat ensures HeadFiled(s', |s'.rows|, g) && HeadFiled(s', |s.rows|, g) {
      assert HeadFiled(s, |s.rows|, g);
      forall i: nat, n: nat | |s.rows| <= n <= |s'.rows| && Head(s'.rows, n, g, i) ensures i in s'.dirs {
        assert s'.rows[|s.rows|] == row;
        HeadTransfer(s'.rows, n, s.rows, |s.rows|, g, i);
      }
    }
  }

  lemma MoveSound(s: Store, h: nat, id: nat, limit: int)
    requires StoreOk(s) && JobOk(s, Job.Building(h, id, limit))
    ensures var (s', j') := Act(s, Job.Building(h, id, limit), Go); Sound(s, Job.Building(h, id, limit), s', j')
  {
    var s' := MoveIn(s, id);
    forall g: nat, n: nat | n <= |s.rows| && HeadFiled(s, n, g) ensures HeadFiled(s', n, g) {}
  }

  lemma CompleteSound(s: Store, h: nat, id: nat, limit: int)
    requires StoreOk(s) && JobOk(s, Job.Moved(h, id, limit))
    ensures var (s', j') := Act(s, Job.Moved(h, id, limit), Go); Sound(s, Job.Moved(h, id, limit), s', j')
  {
    var s' := Complete(s, id);
    forall g: nat ensures HeadFiled(s', |s'.rows|, g) {
      assert HeadFiled(s, |s.rows|, g);
      forall i: nat | Head(s'.rows, |s'.rows|, g, i) ensures i in s'.dirs {
        if i != id { HeadTransfer(s'.rows, |s.rows|, s.rows, |s.rows|, g, i); }
      }
    }
    if s.rows[id].trigger.Schedule? {
      forall i: nat | Head(s'.rows, id, h, i) ensures i in s'.dirs {
        HeadTransfer(s'.rows, id, s.rows, id, h, i);
      }
    }
  }

  lemma FailSound(s: Store, h: nat, id: nat)
    requires StoreOk(s) && JobOk(s, Handling(h, id))
    ensures var (s', j') := Act(s, Handling(h, id), Go); Sound(s, Handling(h, id), s', j')
  {
    var s' := SetFailed(s, id);
    forall g: nat ensures HeadFiled(s', |s'.rows|, g) {
      assert HeadFiled(s, |s.rows|, g);
      forall i: nat | Head(s'.rows, |s'.rows|, g, i) ensures i in s'.dirs {
        if Ours(s.rows[id], g) {
          assert Ours(s.rows[i], h);
          HeadTransfer(s'.rows, |s.rows|, s.rows, id, h, i);
        } else {
          HeadTransfer(s'.rows, |s.rows|, s.rows, |s.rows|, g, i);
        }
      }
    }
  }

  lemma UndoSound(s: Store, h: nat, id: nat)
    requires StoreOk(s) && JobOk(s, Undoing(h, id))
    ensures var (s', j') := Act(s, Undoing(h, id), Go); Sound(s, Undoing(h, id), s', j')
  {
    var s' := RemoveDir(s, id);
    forall g: nat ensures HeadFiled(s', |s'.rows|, g) {
      assert HeadFiled(s, |s.rows|, g);
      forall i: nat | Head(s'.rows, |s'.rows|, g, i) ensures i in s'.dirs {
        assert Head(s.rows, |s.rows|, g, i);
      }
    }
  }

  /** A doomed backup can lose its directory, then its row. */
  lemma RemoveSound(s: Store, scope: Option<nat>, todo: set<nat>, i: nat)
    requires StoreOk(s) && JobOk(s, Purging(scope, todo)) && i in todo
    ensures var (s', j') := Act(s, Purging(scope, todo), Files(i)); Sound(s, Purging(scope, todo), s', j')
  {
    var (s', j') := Act(s, Purging(scope, todo), Files(i));
    assert Doomed(s, scope, i);
    forall g: nat ensures HeadFiled(s', |s'.rows|, g) {
      assert HeadFiled(s, |s.rows|, g);
      forall k: nat | Head(s'.rows, |s'.rows|, g, k) ensures k in s'.dirs {
        assert Head(s.rows, |s.rows|, g, k);
      }
    }
  }

  lemma MarkSound(s: Store, scope: Option<nat>, todo: set<nat>, i: nat)
    requires StoreOk(s) && JobOk(s, Marking(scope, todo, i))
    ensures var (s', j') := Act(s, Marking(scope, todo, i), Go); Sound(s, Marking(scope, todo, i), s', j')
  {
    var s' := MarkDeleted(s, i);
    assert i in todo + {i} && Doomed(s, scope, i);
    forall g: nat ensures HeadFiled(s', |s'.rows|, g) {
      assert HeadFiled(s, |s.rows|, g);
      forall k: nat | Head(s'.rows, |s'.rows|, g, k) ensures k in s'.dirs {
        assert Head(s.rows, |s.rows|, g, k) by { MarkKeepsHead(s, scope, i, g, k); }
      }
    }
    forall x | x in todo ensures Doomed(s', scope, x) {
      assert Doomed(s, scope, x);
      if s.rows[x].trigger.Schedule? { MarkKeepsPassed(s, scope, i, s.rows[x].hosting, x); }
    }
  }

  lemma PassedBelowHead(rows: seq<Row>, g: nat, x: nat, k: nat)
    requires Passed(rows, g, x) && Head(rows, |rows|, g, k)
    ensures x < k
  {
    var j :| x < j < |rows| && Auto(rows[j], g);
    assert j <= k;
  }

  lemma MarkKeepsHead(s: Store, scope: Option<nat>, i: nat, g: nat, k: nat)
    requires Doomed(s, scope, i) && Head(MarkDeleted(s, i).rows, |s.rows|, g, k)
    ensures Head(s.rows, |s.rows|, g, k)
  {
    var rows := MarkDeleted(s, i).rows;
    if Auto(s.rows[i], g) {
      assert Passed(s.rows, g, i);
      MarkKeepsPassed(s, scope, i, g, i);
      PassedBelowHead(rows, g, i, k);
    }
    HeadTransfer(rows, |s.rows|, s.rows, |s.rows|, g, k);
  }

  /** The newest of the backups above x is not the one deleted. */
  lemma MarkKeepsPassed(s: Store, scope: Option<nat>, i: nat, g: nat, x: nat)
    requires Doomed(s, scope, i) && Passed(s.rows, g, x)
    ensures Passed(MarkDeleted(s, i).rows, g, x)
  {
    var rows := MarkDeleted(s, i).rows;
    var j :| x < j < |s.rows| && Auto(s.rows[j], g);
    if j == i {
      var k :| i < k < |s.rows| && Auto(s.rows[k], g);
      j := k;
    }
    assert Auto(rows[j], g);
  }

  lemma SelectSound(s: Store, j: Job)
    requires StoreOk(s) && JobOk(s, j) && (j.Finished? || j.Keeping?)
    ensures var (s', j') := Act(s, j, Go); Sound(s, j, s', j')
  {
    var (s', j') := Act(s, j, Go);
    var todo := j'.value.todo;
    forall x | x in todo ensures Doomed(s, Some(j.h), x) {
      if s.rows[x].trigger.Schedule? {
        var keep := if j.Finished? then j.id else j.keep;
        assert AutoFree(s.rows[x], j.h) && x != keep;
        assert Auto(s.rows[keep], j.h);
        assert Ours(s.rows[x], j.h);
        assert x < keep;
      }
    }
  }

  lemma ActSound(s: Store, j: Job, m: Move)
    requires StoreOk(s) && JobOk(s, j)
    ensures var (s', j') := Act(s, j, m); Sound(s, j, s', j')
  {
    hide StoreOk, InFlight, Doomed, HeadFiled;
    match m
    case Files(i) => if j.Purging? && i in j.todo { RemoveSound(s, j.scope, j.todo, i); }
    case Go => GoSound(s, j);
    case _ =>
  }

  lemma GoSound(s: Store, j: Job)
    requires StoreOk(s) && JobOk(s, j)
    ensures var (s', j') := Act(s, j, Go); Sound(s, j, s', j')
  {
    hide StoreOk, InFlight, Doomed, HeadFiled;
    match j
    case Checked(h, row, limit) => InsertSound(s, h, row, limit);
    case Building(h, id, limit) => MoveSound(s, h, id, limit);
    case Moved(h, id, limit) => CompleteSound(s, h, id, limit);
    case Finished(_, _, _) => SelectSound(s, j);
    case Handling(h, id) => FailSound(s, h, id);
    case Undoing(h, id) => UndoSound(s, h, id);
    case Keeping(_, _) => SelectSound(s, j);
    case Purging(_, _) =>
    case Marking(scope, todo, i) => MarkSound(s, scope, todo, i);
  }

  // ----------------------------------------------------------------- whole system

  lemma BeginSound(s: Store, k: Kind)
    requires StoreOk(s) && Begin(s, k).Some?
    ensures JobOk(s, Begin(s, k).value)
  {
    hide InFlight, Refusal;
    match k
    case Create(_, _, _) =>
    case Sweep(h) =>
      var ids := Autos(s.rows, h);
      assert ids[0] in ids;
      assert forall j: nat :: j < |s.rows| && Auto(s.rows[j], h) ==> j in ids && j <= ids[0];
    case AdminPrevious(h) =>
      var ids := FreeAutos(s.rows, h);
      forall x | x in PreviousAutos(s.rows, h, None) ensures Passed(s.rows, h, x) {
        assert ids[0] in ids && x < ids[0] && Auto(s.rows[ids[0]], h);
      }
    case ManualExcess(h, limit) =>
    case ExpiredTtl(now) =>
  }

  lemma StepKeepsInv(w: World, e: Event)
    requires Inv(w) && Allowed(w, e)
    ensures Inv(Step(w, e))
  {
    hide JobOk, StoreOk, Begin, Act;
    match e
    case Start(p, k) =>
      if p !in w.jobs && Begin(w.s, k).Some? {
        BeginSound(w.s, k);
        BeginScope(w.s, k);
      }
    case Do(p, m) => if p in w.jobs { DoKeepsInv(w, p, m); }
    case SetProtected(i, on) =>
      var s' := Protect(w.s, i, on);
      assert StoreOk(s') by { ProtectSame(w.s, i, on); }
      forall p | p in w.jobs ensures JobOk(s', w.jobs[p]) {
        ProtectSame(w.s, i, on);
        JobOkFrame(w.s, s', w.jobs[p]);
      }
  }

  lemma BeginScope(s: Store, k: Kind)
    requires Begin(s, k).Some?
    ensures Scope(Begin(s, k).value) ==
      match k
      case Create(_, q, _) => Some(q.hosting)
      case Sweep(h) => Some(h)
      case AdminPrevious(h) => Some(h)
      case ManualExcess(h, _) => Some(h)
      case ExpiredTtl(_) => None
  {
    hide Refusal;
  }

  lemma ProtectSame(s: Store, i: nat, on: bool)
    requires StoreOk(s)
    ensures StoreOk(Protect(s, i, on)) && forall h: nat :: Same(s, Protect(s, i, on), h)
  {
    QuietStep(s, Protect(s, i, on));
  }

  lemma DoKeepsInv(w: World, p: nat, m: Move)
    requires Inv(w) && p in w.jobs
    ensures Inv(Step(w, Do(p, m)))
  {
    hide JobOk, StoreOk, Act, Same;
    var (s', j') := Act(w.s, w.jobs[p], m);
    ActSound(w.s, w.jobs[p], m);
    var v := Step(w, Do(p, m));
    forall q | q in v.jobs ensures JobOk(v.s, v.jobs[q]) {
      if q != p {
        assert w.jobs[q] == v.jobs[q];
        JobOkFrame(w.s, s', w.jobs[q]);
      }
    }
  }

  lemma {:induction false} RunKeepsInv(w: World, es: seq<Event>)
    requires Inv(w) && AllAllowed(w, es)
    ensures Inv(Run(w, es))
  {
    if es != [] {
      RunKeepsInv(w, es[..|es| - 1]);
      StepKeepsInv(Run(w, es[..|es| - 1]), es[|es| - 1]);
    }
  }

  const START := World(Store([], {}), map[])

  /** Any interleaving of creates, sweeps, cleanups, throws and crashes with at most one job
      per hosting at a time: every hosting's newest completed automatic backup has its
      files on disk. */
  lemma NewestHasItsFiles(es: seq<Event>, h: nat, i: nat)
    requires AllAllowed(START, es)
    requires Head(Run(START, es).s.rows, |Run(START, es).s.rows|, h, i)
    ensures i in Run(START, es).s.dirs
  {
    hide Run, AllAllowed;
    RunKeepsInv(START, es);
    assert HeadFiled(Run(START, es).s, |Run(START, es).s.rows|, h);
  }

  // --------------------------------------------------------------------- survival

  /** The create call that may still take backup i back. */
  predicate Fragile(j: Job, i: nat) { (j.Finished? || j.Handling?) && j.id == i }

  /** The hosting has a completed automatic backup that no call in flight may take back. */
  ghost predicate Safe(w: World, h: nat) {
    exists i: nat :: i < |w.s.rows| && Auto(w.s.rows[i], h) && forall p :: p in w.jobs ==> !Fragile(w.jobs[p], i)
  }

  lemma ActSafe(s: Store, j: Job, m: Move, h: nat, i: nat)
    requires StoreOk(s) && JobOk(s, j) && i < |s.rows| && Auto(s.rows[i], h) && !Fragile(j, i)
    ensures var (s', j') := Act(s, j, m);
      && i < |s'.rows| && (j'.Some? ==> !Fragile(j'.value, i))
      && (!Auto(s'.rows[i], h) ==>
            j.Marking? && m.Go? && j.i == i && Scope(j) == Some(h) && Passed(s.rows, h, i))
  {
    hide HeadFiled, StoreOk;
    if j.Marking? && m.Go? && j.i == i {
      assert i in j.todo + {i} && Doomed(s, j.scope, i);
    }
  }

  lemma StepKeepsSafe(w: World, e: Event, h: nat)
    requires Inv(w) && Allowed(w, e) && Safe(w, h)
    ensures Safe(Step(w, e), h)
  {
    hide StoreOk, JobOk, Act, Begin;
    var i: nat :| i < |w.s.rows| && Auto(w.s.rows[i], h) && forall p :: p in w.jobs ==> !Fragile(w.jobs[p], i);
    var v := Step(w, e);
    match e
    case Start(p, k) =>
      if p !in w.jobs && Begin(w.s, k).Some? { BeginSteady(w.s, k, i); }
      assert i < |v.s.rows| && Auto(v.s.rows[i], h);
    case Do(p, m) =>
      if p in w.jobs {
        var j := w.jobs[p];
        ActSafe(w.s, j, m, h, i);
        if !Auto(v.s.rows[i], h) {
          var k :| i < k < |w.s.rows| && Auto(w.s.rows[k], h);
          AloneOnHosting(w, p, h, k);
          ActSafe(w.s, j, m, h, k);
          assert Auto(v.s.rows[k], h);
        }
      }
    case SetProtected(_, _) =>
      assert i < |v.s.rows| && Auto(v.s.rows[i], h);
  }

  lemma BeginSteady(s: Store, k: Kind, i: nat)
    requires Begin(s, k).Some?
    ensures !Fragile(Begin(s, k).value, i)
  {
    hide Refusal;
  }

  /** While one job purges a hosting, no create call of that hosting is in flight. */
  lemma AloneOnHosting(w: World, p: nat, h: nat, k: nat)
    requires Inv(w) && p in w.jobs && Scope(w.jobs[p]) == Some(h) && w.jobs[p].Marking?
    requires k < |w.s.rows| && w.s.rows[k].hosting == h
    ensures forall q :: q in w.jobs ==> !Fragile(w.jobs[q], k)
  {
    forall q | q in w.jobs ensures !Fragile(w.jobs[q], k) {
      assert JobOk(w.s, w.jobs[q]);
    }
  }

  lemma {:induction false} RunKeepsSafe(w: World, es: seq<Event>, h: nat)
    requires Inv(w) && AllAllowed(w, es) && Safe(w, h)
    ensures Safe(Run(w, es), h)
  {
    hide Inv, Safe;
    if es != [] {
      RunKeepsInv(w, es[..|es| - 1]);
      RunKeepsSafe(w, es[..|es| - 1], h);
      StepKeepsSafe(Run(w, es[..|es| - 1]), es[|es| - 1], h);
    }
  }

  /** A hosting that has a completed automatic backup still has one, with its files, after
      any allowed run. */
  lemma SurvivorKept(w: World, es: seq<Event>, h: nat) returns (i: nat)
    requires Inv(w) && AllAllowed(w, es) && Safe(w, h)
    ensures var s := Run(w, es).s; i < |s.rows| && Auto(s.rows[i], h) && i in s.dirs
  {
    hide Run, AllAllowed;
    RunKeepsInv(w, es);
    RunKeepsSafe(w, es, h);
    var s := Run(w, es).s;
    var a: nat :| a < |s.rows| && Auto(s.rows[a], h);
    var ids := Autos(s.rows, h);
    assert a in ids;
    i := ids[0];
    assert i in ids;
    assert forall j: nat :: j < |s.rows| && Auto(s.rows[j], h) ==> j in ids && j <= i;
    assert HeadFiled(s, |s.rows|, h) && Head(s.rows, |s.rows|, h, i);
  }

  // ----------------------------------------------------------- one call left alone

  lemma RunSnoc(w: World, es: seq<Event>, e: Event)
    ensures Run(w, es + [e]) == Step(Run(w, es), e)
  {
    assert (es + [e])[..|es|] == es;
  }

  lemma Inserts(w: World, es: seq<Event>, p: nat) returns (fs: seq<Event>)
    requires p in Run(w, es).jobs && Run(w, es).jobs[p].Checked?
    ensures var u, j := Run(w, es), Run(w, es).jobs[p];
      Run(w, fs) == World(Insert(u.s, j.row), u.jobs[p := Job.Building(j.h, |u.s.rows|, j.limit)])
  {
    RunSnoc(w, es, Do(p, Go));
    fs := es + [Do(p, Go)];
  }

  lemma Moves(w: World, es: seq<Event>, p: nat) returns (fs: seq<Event>)
    requires p in Run(w, es).jobs && Run(w, es).jobs[p].Building?
    ensures var u, j := Run(w, es), Run(w, es).jobs[p];
      Run(w, fs) == World(MoveIn(u.s, j.id), u.jobs[p := Job.Moved(j.h, j.id, j.limit)])
  {
    RunSnoc(w, es, Do(p, Go));
    fs := es + [Do(p, Go)];
  }

  lemma Completes(w: World, es: seq<Event>, p: nat) returns (fs: seq<Event>)
    requires p in Run(w, es).jobs && Run(w, es).jobs[p].Moved? && Run(w, es).jobs[p].id < |Run(w, es).s.rows|
    ensures var u, j := Run(w, es), Run(w, es).jobs[p];
      Run(w, fs) == World(Complete(u.s, j.id), u.jobs[p := Finished(j.h, j.id, j.limit)])
  {
    RunSnoc(w, es, Do(p, Go));
    fs := es + [Do(p, Go)];
  }

  lemma Selects(w: World, es: seq<Event>, p: nat) returns (fs: seq<Event>)
    requires p in Run(w, es).jobs && Run(w, es).jobs[p].Finished? && Run(w, es).jobs[p].id < |Run(w, es).s.rows|
    ensures var u, j := Run(w, es), Run(w, es).jobs[p];
      Run(w, fs) == World(u.s, u.jobs[p := Purging(Some(j.h), Retire(u.s.rows, j))])
  {
    RunSnoc(w, es, Do(p, Go));
    fs := es + [Do(p, Go)];
  }

  lemma TakesFiles(w: World, es: seq<Event>, p: nat, i: nat) returns (fs: seq<Event>)
    requires var u := Run(w, es); p in u.jobs && u.jobs[p].Purging? && i in u.jobs[p].todo && i < |u.s.rows|
    ensures var u, j := Run(w, es), Run(w, es).jobs[p];
      Run(w, fs) == World(if u.s.rows[i].hasPath then RemoveDir(u.s, i) else u.s,
                          u.jobs[p := Marking(j.scope, j.todo - {i}, i)])
  {
    RunSnoc(w, es, Do(p, Files(i)));
    fs := es + [Do(p, Files(i))];
  }

  lemma Marks(w: World, es: seq<Event>, p: nat) returns (fs: seq<Event>)
    requires p in Run(w, es).jobs && Run(w, es).jobs[p].Marking?
    ensures var u, j := Run(w, es), Run(w, es).jobs[p];
      Run(w, fs) == World(MarkDeleted(u.s, j.i), u.jobs[p := Purging(j.scope, j.todo)])
  {
    RunSnoc(w, es, Do(p, Go));
    fs := es + [Do(p, Go)];
  }

  lemma PurgeIs(s: Store, i: nat, f: nat -> Fault)
    requires i < |s.rows| && f(i).NoFault?
    ensures MarkDeleted(if s.rows[i].hasPath then RemoveDir(s, i) else s, i) == Purge(s, {i}, f)
  {
    PurgeOne(s, i, f);
    hide Purge;
  }

  lemma PurgesOne(w: World, es: seq<Event>, p: nat, i: nat, f: nat -> Fault) returns (fs: seq<Event>)
    requires f(i).NoFault?
    requires var u := Run(w, es); p in u.jobs && u.jobs[p].Purging? && i in u.jobs[p].todo && i < |u.s.rows|
    ensures var u := Run(w, es);
      Run(w, fs) == World(Purge(u.s, {i}, f), u.jobs[p := Purging(u.jobs[p].scope, u.jobs[p].todo - {i})])
  {
    hide *;
    fs := TakesFiles(w, es, p, i);
    fs := Marks(w, fs, p);
    PurgeIs(Run(w, es).s, i, f);
  }

  /** Left alone, a purge deletes its whole list, in whatever order. */
  lemma {:induction false} PurgesAll(w: World, es: seq<Event>, p: nat, todo: set<nat>, f: nat -> Fault)
    returns (fs: seq<Event>)
    requires forall i :: f(i).NoFault?
    requires var u := Run(w, es);
      p in u.jobs && u.jobs[p].Purging? && u.jobs[p].todo == todo && forall i :: i in todo ==> i < |u.s.rows|
    ensures var u := Run(w, es); Run(w, fs) == World(Purge(u.s, todo, f), u.jobs - {p})
    decreases |todo|
  {
    var u := Run(w, es);
    if i :| i in todo {
      hide Act, Purge, Run;
      fs := PurgesOne(w, es, p, i, f);
      PurgeSize(u.s, {i}, f);
      fs := PurgesAll(w, fs, p, todo - {i}, f);
      PurgeTwice(u.s, {i}, todo - {i}, f);
      assert {i} + (todo - {i}) == todo;
    } else {
      RunSnoc(w, es, Do(p, Go));
      fs := es + [Do(p, Go)];
      PurgeNone(u.s, f);
    }
  }

  lemma PurgeSize(s: Store, ids: set<nat>, f: nat -> Fault)
    ensures |Purge(s, ids, f).rows| == |s.rows|
  {}

  lemma RetireIsRetired(rows: seq<Row>, c: Config, q: Request, id: nat)
    requires id < |rows| && rows[id].trigger == q.trigger
    ensures Retire(rows, Finished(q.hosting, id, ManualLimit(c, q))) == Elems(Retired(rows, c, q, id))
    ensures forall i :: i in Elems(Retired(rows, c, q, id)) ==> i < |rows|
  {}

  lemma PutAgain(jobs: map<nat, Job>, p: nat, j: Job, k: Job)
    requires p !in jobs
    ensures jobs[p := j][p := k] == jobs[p := k] && jobs[p := j] - {p} == jobs
  {}

  function AfterBuild(s: Store, c: Config, q: Request, now: int): Store {
    Complete(MoveIn(Insert(s, NewRow(c, q, now)), |s.rows|), |s.rows|)
  }

  lemma AloneChecks(w: World, p: nat, c: Config, q: Request, now: int) returns (es: seq<Event>)
    requires p !in w.jobs && Refusal(w.s.rows, c, q).None?
    ensures Run(w, es) == w.(jobs := w.jobs[p := Checked(q.hosting, NewRow(c, q, now), ManualLimit(c, q))])
  {
    var k := Kind.Create(c, q, now);
    RunSnoc(w, [], Start(p, k));
    es := [] + [Start(p, k)];
  }

  lemma AloneCompletes(w: World, p: nat, c: Config, q: Request, now: int) returns (es: seq<Event>)
    requires p !in w.jobs && Refusal(w.s.rows, c, q).None?
    ensures Run(w, es)
      == World(AfterBuild(w.s, c, q, now), w.jobs[p := Finished(q.hosting, |w.s.rows|, ManualLimit(c, q))])
  {
    hide Run, Refusal;
    var id, limit := |w.s.rows|, ManualLimit(c, q);
    es := AloneChecks(w, p, c, q, now);
    PutAgain(w.jobs, p, Run(w, es).jobs[p], Job.Building(q.hosting, id, limit));
    es := Inserts(w, es, p);
    PutAgain(w.jobs, p, Run(w, es).jobs[p], Job.Moved(q.hosting, id, limit));
    es := Moves(w, es, p);
    PutAgain(w.jobs, p, Run(w, es).jobs[p], Finished(q.hosting, id, limit));
    es := Completes(w, es, p);
  }

  lemma CreateIs(s: Store, c: Config, q: Request, now: int, f: nat -> Fault)
    requires Refusal(s.rows, c, q).None?
    ensures var v := AfterBuild(s, c, q, now);
      && |s.rows| < |v.rows| && v.rows[|s.rows|].trigger == q.trigger
      && BackupStore.Create(s, c, q, now, NoThrow, false, f).0
           == Purge(v, Elems(Retired(v.rows, c, q, |s.rows|)), f)
  {
    hide Refusal, Purge, Retired;
  }

  /** Left alone and without faults, the steps of a create call do what the call does. */
  lemma AloneIsCreate(w: World, p: nat, c: Config, q: Request, now: int, f: nat -> Fault) returns (es: seq<Event>)
    requires p !in w.jobs && Refusal(w.s.rows, c, q).None? && forall i :: f(i).NoFault?
    ensures Run(w, es) == World(BackupStore.Create(w.s, c, q, now, NoThrow, false, f).0, w.jobs)
  {
    hide *;
    var v, id := AfterBuild(w.s, c, q, now), |w.s.rows|;
    es := AloneCompletes(w, p, c, q, now);
    CreateIs(w.s, c, q, now, f);
    RetireIsRetired(v.rows, c, q, id);
    var j := Finished(q.hosting, id, ManualLimit(c, q));
    var todo := Elems(Retired(v.rows, c, q, id));
    es := Selects(w, es, p);
    PutAgain(w.jobs, p, j, Purging(Some(q.hosting), todo));
    PutAgain(w.jobs, p, Purging(Some(q.hosting), todo), j);
    es := PurgesAll(w, es, p, todo, f);
  }

  // ------------------------------------------- two jobs on one hosting at the same time

  const CONFIG := Config(true, 2, 3600)
  const SCHEDULED := Request(0, true, 0, AgenciaPro, Schedule, false)

  /** A scheduled backup of hosting 0: complete with files, in flight, or deleted. */
  const GOOD := Row(0, 0, Schedule, Completed, true, None, false)
  const FRESH := Row(0, 0, Schedule, Running, false, None, false)
  const GONE := Row(0, 0, Schedule, Deleted, true, None, false)

  /** A scheduled create call of hosting 0 that passes its checks. */
  lemma Starts(w: World, es: seq<Event>, p: nat) returns (fs: seq<Event>)
    requires p !in Run(w, es).jobs && forall i :: 0 <= i < |Run(w, es).s.rows| ==> Run(w, es).s.rows[i] == GOOD
    ensures var u := Run(w, es); Run(w, fs) == u.(jobs := u.jobs[p := Checked(0, FRESH, 2)])
  {
    var k := Create(CONFIG, SCHEDULED, 0);
    assert Begin(Run(w, es).s, k) == Some(Checked(0, FRESH, 2));
    RunSnoc(w, es, Start(p, k));
    fs := es + [Start(p, k)];
  }

  lemma TwoStart(w: World) returns (es: seq<Event>)
    requires w == World(Store([GOOD], {0}), map[])
    ensures Run(w, es).s == Store([GOOD, FRESH, FRESH], {0})
    ensures Run(w, es).jobs == map[0 := Job.Building(0, 1, 2), 1 := Job.Building(0, 2, 2)]
  {
    assert Run(w, []) == w;
    hide Run;
    es := Starts(w, [], 0);
    es := Starts(w, es, 1);
    es := Inserts(w, es, 0);
    es := Inserts(w, es, 1);
  }

  lemma TwoFinish(w: World, es: seq<Event>) returns (fs: seq<Event>)
    requires Run(w, es).s == Store([GOOD, FRESH, FRESH], {0})
    requires Run(w, es).jobs == map[0 := Job.Building(0, 1, 2), 1 := Job.Building(0, 2, 2)]
    ensures Run(w, fs).s == Store([GOOD, GOOD, GOOD], {0, 1, 2})
    ensures Run(w, fs).jobs == map[0 := Finished(0, 1, 2), 1 := Finished(0, 2, 2)]
  {
    hide Run;
    fs := Moves(w, es, 0);
    fs := Completes(w, fs, 0);
    fs := Moves(w, fs, 1);
    fs := Completes(w, fs, 1);
  }

  /** One job deletes one backup from its list, files and row. */
  lemma DeletesOne(w: World, es: seq<Event>, p: nat, i: nat) returns (fs: seq<Event>)
    requires var u := Run(w, es);
      p in u.jobs && u.jobs[p].Purging? && i in u.jobs[p].todo && i < |u.s.rows| && u.s.rows[i].hasPath
    ensures var u := Run(w, es);
      Run(w, fs) == World(MarkDeleted(RemoveDir(u.s, i), i), u.jobs[p := Purging(u.jobs[p].scope, u.jobs[p].todo - {i})])
  {
    hide *;
    fs := TakesFiles(w, es, p, i);
    fs := Marks(w, fs, p);
  }

  lemma OthersOfThree()
    ensures Elems(PreviousAutos([GOOD, GOOD, GOOD], 0, Some(1))) == {0, 2}
    ensures Elems(PreviousAutos([GOOD, GOOD, GOOD], 0, Some(2))) == {0, 1}
    ensures Elems(PreviousAutos([GONE, GONE, GOOD], 0, Some(1))) == {2}
  {
    assert [GONE, GONE, GOOD][2] == GOOD;
    assert 2 in FreeAutos([GONE, GONE, GOOD], 0);
  }

  lemma BothSelect(w: World, es: seq<Event>) returns (fs: seq<Event>)
    requires Run(w, es).s == Store([GOOD, GOOD, GOOD], {0, 1, 2})
    requires Run(w, es).jobs == map[0 := Finished(0, 1, 2), 1 := Finished(0, 2, 2)]
    ensures Run(w, fs).s == Run(w, es).s
    ensures Run(w, fs).jobs == map[0 := Purging(Some(0), {0, 2}), 1 := Purging(Some(0), {0, 1})]
  {
    hide Run, PreviousAutos;
    OthersOfThree();
    fs := Selects(w, es, 0);
    fs := Selects(w, fs, 1);
  }

  /** The check and the insert are separate transactions.  Two scheduled calls that both
      pass the check, and then do nothing but what the code says, delete each other's
      backup along with the old one: the hosting is left without any. */
  lemma TwoCreatesLoseEverything(w: World) returns (es: seq<Event>)
    requires w == World(Store([GOOD], {0}), map[])
    ensures Run(w, es).s == Store([GONE, GONE, GONE], {})
    ensures Safe(w, 0) && !Safe(Run(w, es), 0)
  {
    hide Run, Begin, JobOk, Inv, PreviousAutos;
    assert Auto(w.s.rows[0], 0);
    es := TwoStart(w);
    es := TwoFinish(w, es);
    es := BothSelect(w, es);
    es := DeletesOne(w, es, 0, 0);
    assert Run(w, es).s == Store([GONE, GOOD, GOOD], {1, 2});
    es := DeletesOne(w, es, 0, 2);
    assert Run(w, es).s == Store([GONE, GOOD, GONE], {1});
    es := DeletesOne(w, es, 1, 1);
    assert Run(w, es).s.rows == [GONE, GONE, GONE];
  }

  lemma SweepReadsKeep(w: World) returns (es: seq<Event>)
    requires w == World(Store([GOOD, GOOD], {0, 1}), map[])
    ensures Run(w, es) == w.(jobs := map[0 := Keeping(0, 1)])
  {
    var ids := Autos(w.s.rows, 0);
    assert 1 in ids && 0 in ids && forall i :: i in ids ==> i < 2;
    assert ids[0] in ids && ids[0] == 1;
    RunSnoc(w, [], Start(0, Sweep(0)));
    es := [] + [Start(0, Sweep(0))];
  }

  lemma CreateDuringSweep(w: World, es: seq<Event>) returns (fs: seq<Event>)
    requires Run(w, es).s == Store([GOOD, GOOD], {0, 1}) && Run(w, es).jobs == map[0 := Keeping(0, 1)]
    ensures Run(w, fs).s == Store([GOOD, GOOD, GOOD], {0, 1, 2})
    ensures Run(w, fs).jobs == map[0 := Keeping(0, 1), 1 := Purging(Some(0), {0, 1})]
  {
    hide Run, PreviousAutos;
    fs := Starts(w, es, 1);
    fs := Inserts(w, fs, 1);
    fs := Moves(w, fs, 1);
    fs := Completes(w, fs, 1);
    assert Run(w, fs).s == Store([GOOD, GOOD, GOOD], {0, 1, 2});
    OthersOfThree();
    fs := Selects(w, fs, 1);
  }

  lemma SweepSelects(w: World, es: seq<Event>) returns (fs: seq<Event>)
    requires Run(w, es).s == Store([GONE, GONE, GOOD], {2})
    requires 0 in Run(w, es).jobs && Run(w, es).jobs[0] == Keeping(0, 1)
    ensures Run(w, fs).s == Run(w, es).s
    ensures 0 in Run(w, fs).jobs && Run(w, fs).jobs[0] == Purging(Some(0), {2})
  {
    OthersOfThree();
    RunSnoc(w, es, Do(0, Go));
    fs := es + [Do(0, Go)];
  }

  /** The sweep keeps the id it read first.  A scheduled call that completes in between
      deletes that backup, and the sweep then deletes the new one. */
  lemma SweepLosesNewBackup(w: World) returns (es: seq<Event>)
    requires w == World(Store([GOOD, GOOD], {0, 1}), map[])
    ensures Run(w, es).s == Store([GONE, GONE, GONE], {})
    ensures Safe(w, 0) && !Safe(Run(w, es), 0)
  {
    hide Run, Begin, JobOk, Inv, PreviousAutos;
    assert Auto(w.s.rows[0], 0);
    es := SweepReadsKeep(w);
    es := CreateDuringSweep(w, es);
    es := DeletesOne(w, es, 1, 1);
    assert Run(w, es).s == Store([GOOD, GONE, GOOD], {0, 2});
    es := DeletesOne(w, es, 1, 0);
    assert Run(w, es).s == Store([GONE, GONE, GOOD], {2});
    es := SweepSelects(w, es);
    es := DeletesOne(w, es, 0, 2);
    assert Run(w, es).s.rows == [GONE, GONE, GONE];
  }
}
