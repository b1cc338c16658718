/** Per-hosting backup policies with an append-only history:
    app/services/backup_policy_service.py.

    One table object is the policy row of one hosting and its history entries; a
    history_id is an index into them.  The row and its history entry are written in two
    transactions, so the second may fail after the first. */
module BackupPolicy {
  import opened Prelude
  import B = BackupStore

  /** The thirteen settable fields. */
  datatype Policy = Policy(
    automatic: bool, manual: bool, frequency: string, retention: string,
    ttlHours: int, maxManual: int, maxStorage: int, maxTotal: int,
    adminOverride: bool, addon: bool, included: bool,
    paused: bool, pausedReason: Option<string>)

  datatype Row = Row(policyId: nat, p: Policy, updatedBy: nat, updatedAt: int)

  /** A history entry: the snapshot before ({} is None) and after. */
  datatype Entry = Entry(prev: Option<Row>, next: Row, who: nat)

  datatype Table = Table(row: Option<Row>, history: seq<Entry>)

  const EMPTY := Table(None, [])

  /** The keyword arguments of upsert_policy. */
  datatype Patch = Patch(
    automatic: Option<bool>, manual: Option<bool>, frequency: Option<string>, retention: Option<string>,
    ttlHours: Option<int>, maxManual: Option<int>, maxStorage: Option<int>, maxTotal: Option<int>,
    adminOverride: Option<bool>, addon: Option<bool>, included: Option<bool>,
    paused: Option<bool>, pausedReason: Option<string>)

  const NO_PATCH := Patch(None, None, None, None, None, None, None, None, None, None, None, None, None)

  /** `x if x is not None else d`. */
  function Given<T>(x: Option<T>, d: T): T { if x.Some? then x.value else d }

  /** `x or d` on strings. */
  function OrText(x: Option<string>, d: string): string { if x.Some? && x.value != "" then x.value else d }

  /** `x or d` on integers. */
  function OrInt(x: int, d: int): int { if x != 0 then x else d }

  function Patched(base: Policy, x: Patch): Policy {
    Policy(Given(x.automatic, base.automatic), Given(x.manual, base.manual),
           OrText(x.frequency, base.frequency), OrText(x.retention, base.retention),
           Given(x.ttlHours, base.ttlHours), Given(x.maxManual, base.maxManual),
           Given(x.maxStorage, base.maxStorage), Given(x.maxTotal, base.maxTotal),
           Given(x.adminOverride, base.adminOverride), Given(x.addon, base.addon), Given(x.included, base.included),
           Given(x.paused, base.paused), if x.pausedReason.Some? then x.pausedReason else base.pausedReason)
  }

  function PlanDefaults(plan: B.Plan): Policy {
    var auto := B.AutomaticPlan(plan);
    var manual := B.ManualPlan(plan);
    Policy(auto, manual,
           if auto then "daily" else if manual then "manual" else "none",
           if auto then "latest_only" else "manual_limited",
           24, B.MaxManual(plan), 2048, 2048, false, false, manual || auto, false, None)
  }

  /** What a call reads around it: is the hosting known, the plan of its user (Free when
      there is none), the id a new row gets, and NOW(). */
  datatype Env = Env(known: bool, plan: B.Plan, freshId: nat, now: int)

  datatype Fault = NoFault | OnWrite | OnHistory

  datatype Outcome = NotFound | WriteRaised | HistoryRaised | Saved(row: Row)

  function NewRow(row: Option<Row>, env: Env, x: Patch, who: nat): Row {
    match row
    case None => Row(env.freshId, Patched(PlanDefaults(env.plan), x), who, env.now)
    case Some(was) => Row(was.policyId, Patched(was.p, x), who, env.now)
  }

  function Upsert(t: Table, env: Env, x: Patch, who: nat, fault: Fault): (Table, Outcome) {
    if !env.known then (t, NotFound)
    else if fault.OnWrite? then (t, WriteRaised)
    else
      var row := NewRow(t.row, env, x, who);
      if fault.OnHistory? then (t.(row := Some(row)), HistoryRaised)
      else (Table(Some(row), t.history + [Entry(t.row, row, who)]), Saved(row))
  }

  /** The arguments revert_policy takes out of a snapshot; {} has none of them. */
  function SnapshotPatch(snapshot: Option<Row>): Patch {
    match snapshot
    case None => NO_PATCH
    case Some(r) =>
      Patch(Some(r.p.automatic), Some(r.p.manual), Some(r.p.frequency), Some(r.p.retention),
            Some(r.p.ttlHours), Some(r.p.maxManual), Some(r.p.maxStorage), Some(r.p.maxTotal),
            Some(r.p.adminOverride), Some(r.p.addon), Some(r.p.included),
            Some(r.p.paused), r.p.pausedReason)
  }

  function Revert(t: Table, env: Env, historyId: nat, who: nat, fault: Fault): (Table, Outcome) {
    if historyId >= |t.history| then (t, NotFound)
    else Upsert(t, env, SnapshotPatch(t.history[historyId].prev), who, fault)
  }

  function PausePatch(reason: string): Patch { NO_PATCH.(paused := Some(true), pausedReason := Some(reason)) }

  function ResumePatch(): Patch { NO_PATCH.(paused := Some(false)) }

  class Policies {
    var row: Option<Row>
    var history: seq<Entry>

    function Snapshot(): Table
      reads this
    {
      Table(row, history)
    }

    constructor ()
      ensures Snapshot() == EMPTY
    {
      row, history := None, [];
    }

    method UpsertPolicy(env: Env, x: Patch, who: nat, fault: Fault) returns (r: Outcome)
      modifies this
      ensures (Snapshot(), r) == Upsert(old(Snapshot()), env, x, who, fault)
    {
      if !env.known { return NotFound; }
      var oldRow := row;
      var base := if oldRow.None? then PlanDefaults(env.plan) else oldRow.value.p;
      if fault.OnWrite? { return WriteRaised; }
      var newRow := Row(if oldRow.None? then env.freshId else oldRow.value.policyId, Patched(base, x), who, env.now);
      row := Some(newRow);
      if fault.OnHistory? { return HistoryRaised; }
      history := history + [Entry(oldRow, newRow, who)];
      return Saved(newRow);
    }

    method RevertPolicy(env: Env, historyId: nat, who: nat, fault: Fault) returns (r: Outcome)
      modifies this
      ensures (Snapshot(), r) == Revert(old(Snapshot()), env, historyId, who, fault)
    {
      if historyId >= |history| { return NotFound; }
      r := UpsertPolicy(env, SnapshotPatch(history[historyId].prev), who, fault);
    }

    method PauseBackups(env: Env, reason: string, who: nat, fault: Fault) returns (r: Outcome)
      modifies this
      ensures (Snapshot(), r) == Upsert(old(Snapshot()), env, PausePatch(reason), who, fault)
      ensures r.Saved? ==> row == Some(r.row) && r.row.p.paused && r.row.p.pausedReason == Some(reason)
    {
      r := UpsertPolicy(env, PausePatch(reason), who, fault);
    }

    method ResumeBackups(env: Env, who: nat, fault: Fault) returns (r: Outcome)
      modifies this
      ensures (Snapshot(), r) == Upsert(old(Snapshot()), env, ResumePatch(), who, fault)
      ensures r.Saved? ==> row == Some(r.row) && !r.row.p.paused
    {
      r := UpsertPolicy(env, ResumePatch(), who, fault);
    }
  }

  // ------------------------------------------------------------------------ runs

  datatype Call =
    | UpsertCall(env: Env, x: Patch, who: nat, fault: Fault)
    | RevertCall(env: Env, historyId: nat, who: nat, fault: Fault)

  function Apply(t: Table, c: Call): (Table, Outcome) {
    match c
    case UpsertCall(env, x, who, fault) => Upsert(t, env, x, who, fault)
    case RevertCall(env, historyId, who, fault) => Revert(t, env, historyId, who, fault)
  }

  function Run(t: Table, cs: seq<Call>): Table
    decreases |cs|
  {
    if cs == [] then t else Run(Apply(t, cs[0]).0, cs[1..])
  }

  /** The outcomes of a run, in order. */
  function Outcomes(t: Table, cs: seq<Call>): (os: seq<Outcome>)
    ensures |os| == |cs|
    decreases |cs|
  {
    if cs == [] then [] else var (u, o) := Apply(t, cs[0]); [o] + Outcomes(u, cs[1..])
  }

  function SavedRows(os: seq<Outcome>): seq<Row> {
    if os == [] then [] else (if os[0].Saved? then [os[0].row] else []) + SavedRows(os[1..])
  }

  function Nexts(es: seq<Entry>): seq<Row> { seq(|es|, i requires 0 <= i < |es| => es[i].next) }

  /** Each entry starts where the one before ended, and the last ends at the row. */
  ghost predicate Chain(t: Table) {
    && (forall i :: 0 <= i < |t.history| - 1 ==> t.history[i + 1].prev == Some(t.history[i].next))
    && t.row == if t.history == [] then None else Some(t.history[|t.history| - 1].next)
  }

  /** A call keeps the chain unless it changes the row without recording it. */
  lemma ChainStep(t: Table, c: Call)
    requires Chain(t)
    ensures var (u, o) := Apply(t, c); Chain(u) <==> (o.HistoryRaised? ==> u.row == t.row)
  {}

  /** Whatever fails, entries are only ever added, one for each successful call and in
      that order. */
  lemma {:induction false} HistoryAppends(t: Table, cs: seq<Call>)
    ensures t.history <= Run(t, cs).history
    ensures Nexts(Run(t, cs).history) == Nexts(t.history) + SavedRows(Outcomes(t, cs))
    decreases |cs|
  {
    if cs != [] {
      var (u, o) := Apply(t, cs[0]);
      HistoryAppends(u, cs[1..]);
      assert Outcomes(t, cs)[1..] == Outcomes(u, cs[1..]);
      assert Nexts(u.history) == Nexts(t.history) + if o.Saved? then [o.row] else [];
    }
  }

  /** As long as no history write failed, the history is a chain from nothing to the
      current row. */
  lemma {:induction false} ChainKept(t: Table, cs: seq<Call>)
    requires Chain(t) && forall i :: 0 <= i < |cs| ==> !Outcomes(t, cs)[i].HistoryRaised?
    ensures Chain(Run(t, cs))
    decreases |cs|
  {
    if cs != [] {
      var (u, o) := Apply(t, cs[0]);
      assert Outcomes(t, cs)[0] == o;
      ChainStep(t, cs[0]);
      assert Outcomes(t, cs)[1..] == Outcomes(u, cs[1..]);
      ChainKept(u, cs[1..]);
    }
  }

  /** Rows and snapshots never hold an empty frequency or retention policy. */
  predicate Worded(r: Row) { r.p.frequency != "" && r.p.retention != "" }

  ghost predicate AllWorded(t: Table) {
    && (t.history != [] ==> t.row.Some?)
    && (t.row.Some? ==> Worded(t.row.value))
    && forall i :: 0 <= i < |t.history| ==>
         Worded(t.history[i].next) && (t.history[i].prev.Some? ==> Worded(t.history[i].prev.value))
  }

  lemma {:induction false} RunKeepsWorded(t: Table, cs: seq<Call>)
    requires AllWorded(t)
    ensures AllWorded(Run(t, cs))
    decreases |cs|
  {
    if cs != [] {
      assert AllWorded(Apply(t, cs[0]).0);
      RunKeepsWorded(Apply(t, cs[0]).0, cs[1..]);
    }
  }

  // ---------------------------------------------------------------------- revert

  /** Equal in all settable fields but the reason of a pause. */
  predicate SameButReason(p: Policy, q: Policy) { p.(pausedReason := None) == q.(pausedReason := None) }

  /** After any run, reverting an entry with a snapshot restores twelve fields; it restores
      the thirteenth too exactly when the snapshot has a reason or the row has none. */
  lemma RevertRestores(cs: seq<Call>, env: Env, historyId: nat, who: nat)
    requires var t := Run(EMPTY, cs); historyId < |t.history| && t.history[historyId].prev.Some?
    requires env.known
    ensures var t := Run(EMPTY, cs);
      t.row.Some? &&
      var snapshot, before := t.history[historyId].prev.value.p, t.row.value.p;
      var (u, o) := Revert(t, env, historyId, who, NoFault);
      && o.Saved? && u.row == Some(o.row)
      && SameButReason(o.row.p, snapshot)
      && (o.row.p == snapshot <==> snapshot.pausedReason.Some? || before.pausedReason.None?)
  {
    RunKeepsWorded(EMPTY, cs);
  }

  /** Reverting the revert restores the row it replaced, up to a reason that the row did
      not have and the first snapshot brought. */
  lemma RevertTheRevert(cs: seq<Call>, env: Env, historyId: nat, who: nat, env2: Env, who2: nat)
    requires historyId < |Run(EMPTY, cs).history|
    requires env.known && env2.known
    ensures var t := Run(EMPTY, cs);
      t.row.Some? &&
      var before := t.row.value.p;
      var (u, o) := Revert(t, env, historyId, who, NoFault);
      var (v, r) := Revert(u, env2, |t.history|, who2, NoFault);
      && u.row.Some? && r.Saved? && v.row == Some(r.row)
      && SameButReason(r.row.p, before)
      && (r.row.p == before <==> before.pausedReason.Some? || u.row.value.p.pausedReason.None?)
  {
    RunKeepsWorded(EMPTY, cs);
    var t := Run(EMPTY, cs);
    assert Revert(t, env, historyId, who, NoFault).0.history[|t.history|].prev == t.row;
  }

  /** The entry that created the row has no snapshot: reverting it changes no field. */
  lemma RevertingCreationDoesNothing(t: Table, env: Env, historyId: nat, who: nat)
    requires historyId < |t.history| && t.history[historyId].prev.None? && t.row.Some? && env.known
    ensures var (u, o) := Revert(t, env, historyId, who, NoFault); o.Saved? && o.row.p == t.row.value.p
  {}

  /** Pausing sets the flag and the reason and nothing else, resuming clears the flag and
      nothing else. */
  lemma PauseExactly(t: Table, env: Env, reason: string, who: nat)
    requires t.row.Some? && env.known
    ensures var p := t.row.value.p;
      var (u, o) := Upsert(t, env, PausePatch(reason), who, NoFault);
      var (v, r) := Upsert(t, env, ResumePatch(), who, NoFault);
      && o.Saved? && u.row == Some(o.row) && o.row.p == p.(paused := true, pausedReason := Some(reason))
      && r.Saved? && v.row == Some(r.row) && r.row.p == p.(paused := false)
  {}

  /** Pausing and resuming leaves the reason of the pause behind. */
  lemma PauseThenResume(t: Table, env: Env, reason: string, who: nat, env2: Env, who2: nat)
    requires t.row.Some? && env.known && env2.known
    ensures var u := Upsert(t, env, PausePatch(reason), who, NoFault).0;
      var v := Upsert(u, env2, ResumePatch(), who2, NoFault).0;
      var before := t.row.value.p;
      && v.row.Some? && v.row.value.p == before.(paused := false, pausedReason := Some(reason))
      && (v.row.value.p == before <==> !before.paused && before.pausedReason == Some(reason))
  {}

  // --------------------------------------------------------- calls at the same time

  /** How far an upsert has come.  HasRead: the SELECT has given the lock back with its
      connection; `at` counts the writes before it.  Wrote: the row is committed, the history
      entry is not. */
  datatype Phase =
    | HasRead(was: Option<Row>, x: Patch, who: nat, at: nat)
    | Wrote(was: Option<Row>, row: Row, who: nat)

  /** `writes`: row writes so far. */
  datatype World = World(t: Table, calls: map<nat, Phase>, writes: nat)

  /** Fail: the call throws and is gone, wherever it is. */
  datatype Event = Read(p: nat, x: Patch, who: nat) | Write(p: nat, env: Env) | Record(p: nat) | Fail(p: nat)

  function Step(w: World, e: Event): World {
    match e
    case Read(p, x, who) =>
      if p in w.calls then w else w.(calls := w.calls[p := HasRead(w.t.row, x, who, w.writes)])
    case Write(p, env) =>
      if p !in w.calls || !w.calls[p].HasRead? then w
      else
        var c := w.calls[p];
        // hosting_id is unique: the INSERT of a call that saw no row fails once there is one.
        if c.was.None? && w.t.row.Some? then w.(calls := w.calls - {p})
        else
          var row := NewRow(c.was, env, c.x, c.who);
          World(w.t.(row := Some(row)), w.calls[p := Wrote(c.was, row, c.who)], w.writes + 1)
    case Record(p) =>
      if p !in w.calls || !w.calls[p].Wrote? then w
      else
        var c := w.calls[p];
        World(w.t.(history := w.t.history + [Entry(c.was, c.row, c.who)]), w.calls - {p}, w.writes)
    case Fail(p) => w.(calls := w.calls - {p})
  }

  function RunCalls(w: World, es: seq<Event>): World
    decreases |es|
  {
    if es == [] then w else RunCalls(Step(w, es[0]), es[1..])
  }

  /** No other write falls between the read and the record of a call that writes, and a row
      that was written is recorded. */
  predicate Undisturbed(w: World, e: Event) {
    match e
    case Write(p, _) =>
      p in w.calls && w.calls[p].HasRead? ==>
        w.calls[p].at == w.writes && forall q :: q in w.calls ==> !w.calls[q].Wrote?
    case Fail(p) => p in w.calls ==> !w.calls[p].Wrote?
    case _ => true
  }

  predicate AllUndisturbed(w: World, es: seq<Event>)
    decreases |es|
  {
    es == [] || (Undisturbed(w, es[0]) && AllUndisturbed(Step(w, es[0]), es[1..]))
  }

  /** The chain, with the one unrecorded write appended. */
  ghost predicate ChainUpTo(w: World) {
    && (forall p, q :: p in w.calls && q in w.calls && w.calls[p].Wrote? && w.calls[q].Wrote? ==> p == q)
    && (forall p :: p in w.calls && w.calls[p].HasRead? ==>
          w.calls[p].at <= w.writes && (w.calls[p].at == w.writes ==> w.calls[p].was == w.t.row))
    && (forall p :: p in w.calls && w.calls[p].Wrote? ==>
          w.t.row == Some(w.calls[p].row) && Chain(Table(w.calls[p].was, w.t.history)))
    && ((forall p :: p in w.calls ==> !w.calls[p].Wrote?) ==> Chain(w.t))
  }

  lemma WriteKeepsChainUpTo(w: World, p: nat, env: Env)
    requires ChainUpTo(w) && Undisturbed(w, Write(p, env)) && p in w.calls && w.calls[p].HasRead?
    ensures ChainUpTo(Step(w, Write(p, env)))
  {
    hide Chain, NewRow;
    var v := Step(w, Write(p, env));
    var was := w.calls[p].was;
    assert was == w.t.row && Chain(w.t) && Table(was, w.t.history) == w.t;
    forall q | q in v.calls && q != p
      ensures q in w.calls && v.calls[q] == w.calls[q] && !v.calls[q].Wrote?
      ensures v.calls[q].HasRead? ==>
        v.calls[q].at <= w.writes && (v.calls[q].at == w.writes ==> v.calls[q].was == w.t.row)
    {}
    if p in v.calls { assert v.calls[p].Wrote? && v.calls[p].was == was; }
  }

  lemma RecordKeepsChainUpTo(w: World, p: nat)
    requires ChainUpTo(w) && p in w.calls && w.calls[p].Wrote?
    ensures ChainUpTo(Step(w, Record(p)))
  {
    hide Chain;
    var v := Step(w, Record(p));
    var c := w.calls[p];
    ChainGrows(c.was, w.t.history, Entry(c.was, c.row, c.who));
    assert v.t == Table(Some(c.row), w.t.history + [Entry(c.was, c.row, c.who)]);
    assert forall q :: q in v.calls ==> v.calls[q] == w.calls[q] && !v.calls[q].Wrote?;
  }

  lemma FailKeepsChainUpTo(w: World, p: nat)
    requires ChainUpTo(w) && Undisturbed(w, Fail(p))
    ensures ChainUpTo(Step(w, Fail(p)))
  {
    hide Chain;
    var v := Step(w, Fail(p));
    assert forall q :: q in w.calls && w.calls[q].Wrote? ==> q in v.calls && v.calls[q] == w.calls[q];
  }

  lemma ReadKeepsChainUpTo(w: World, p: nat, x: Patch, who: nat)
    requires ChainUpTo(w)
    ensures ChainUpTo(Step(w, Read(p, x, who)))
  {
    hide Chain;
    var v := Step(w, Read(p, x, who));
    assert forall q :: q in w.calls && w.calls[q].Wrote? ==> q in v.calls && v.calls[q] == w.calls[q];
  }

  lemma StepKeepsChainUpTo(w: World, e: Event)
    requires ChainUpTo(w) && Undisturbed(w, e)
    ensures ChainUpTo(Step(w, e))
  {
    hide ChainUpTo, NewRow;
    match e
    case Read(p, x, who) => ReadKeepsChainUpTo(w, p, x, who);
    case Write(p, env) => if p in w.calls && w.calls[p].HasRead? { WriteKeepsChainUpTo(w, p, env); }
    case Record(p) => if p in w.calls && w.calls[p].Wrote? { RecordKeepsChainUpTo(w, p); }
    case Fail(p) => FailKeepsChainUpTo(w, p);
  }

  lemma ChainGrows(row: Option<Row>, history: seq<Entry>, e: Entry)
    requires Chain(Table(row, history)) && e.prev == row
    ensures Chain(Table(Some(e.next), history + [e]))
  {}

  lemma {:induction false} RunKeepsChainUpTo(w: World, es: seq<Event>)
    requires ChainUpTo(w) && AllUndisturbed(w, es)
    ensures ChainUpTo(RunCalls(w, es))
    decreases |es|
  {
    hide ChainUpTo, Undisturbed, Step;
    if es != [] {
      StepKeepsChainUpTo(w, es[0]);
      RunKeepsChainUpTo(Step(w, es[0]), es[1..]);
    }
  }

  /** Any number of calls, any interleaving of reads, writes, records and failures in which no
      other write falls between a call's read and its record: once nothing is unrecorded, the
      history is a chain from nothing to the row. */
  lemma InterleavedChain(es: seq<Event>)
    requires AllUndisturbed(World(EMPTY, map[], 0), es)
    requires var w := RunCalls(World(EMPTY, map[], 0), es); forall p :: p in w.calls ==> !w.calls[p].Wrote?
    ensures Chain(RunCalls(World(EMPTY, map[], 0), es).t)
  {
    hide RunCalls, AllUndisturbed;
    assert ChainUpTo(World(EMPTY, map[], 0));
    RunKeepsChainUpTo(World(EMPTY, map[], 0), es);
  }

  lemma Unroll3(w: World, es: seq<Event>)
    requires 3 <= |es|
    ensures RunCalls(w, es) == RunCalls(Step(Step(Step(w, es[0]), es[1]), es[2]), es[3..])
  {
    hide Step;
    assert es[1..][1..] == es[2..] && es[2..][1..] == es[3..];
    assert RunCalls(Step(w, es[0]), es[1..]) == RunCalls(Step(Step(w, es[0]), es[1]), es[2..]);
  }

  /** A call left alone does what upsert_policy does. */
  lemma AloneIsUpsert(t: Table, env: Env, x: Patch, who: nat)
    requires env.known
    ensures RunCalls(World(t, map[], 0), [Read(0, x, who), Write(0, env), Record(0)])
      == World(Upsert(t, env, x, who, NoFault).0, map[], 1)
  {
    hide NewRow;
    var es := [Read(0, x, who), Write(0, env), Record(0)];
    var w := World(t, map[], 0);
    Unroll3(w, es);
    assert Step(w, es[0]).calls == map[0 := HasRead(t.row, x, who, 0)];
    assert Step(Step(w, es[0]), es[1]).calls == map[0 := Wrote(t.row, NewRow(t.row, env, x, who), who)];
    assert es[3..] == [];
  }

  /** Two calls on an existing row that both read before either writes, each doing nothing but
      what the code says: the row is as if the first had never been, and a chain is broken
      unless the first call changed nothing. */
  lemma OverlapLosesTheFirst(t: Table, env: Env, x: Patch, who: nat, env2: Env, x2: Patch, who2: nat)
    requires t.row.Some? && env.known && env2.known
    ensures var es := [Read(0, x, who), Read(1, x2, who2), Write(0, env), Record(0), Write(1, env2), Record(1)];
      var u := RunCalls(World(t, map[], 0), es);
      && u.calls == map[] && |u.t.history| == |t.history| + 2
      && u.t.row == Upsert(t, env2, x2, who2, NoFault).0.row
      && (Chain(t) ==> (Chain(u.t) <==> NewRow(t.row, env, x, who) == t.row.value))
  {
    hide NewRow, Chain;
    var es := [Read(0, x, who), Read(1, x2, who2), Write(0, env), Record(0), Write(1, env2), Record(1)];
    var row1, row2 := NewRow(t.row, env, x, who), NewRow(t.row, env2, x2, who2);
    var read2 := HasRead(t.row, x2, who2, 0);
    var w3 := World(t.(row := Some(row1)), map[0 := Wrote(t.row, row1, who), 1 := read2], 1);
    var w4 := World(Table(Some(row1), t.history + [Entry(t.row, row1, who)]), map[1 := read2], 1);
    OverlapFirst(t, env, x, who, x2, who2);
    Unroll3(World(t, map[], 0), es);
    assert Step(w3, es[3]) == w4;
    var w5 := Step(w4, es[4]);
    assert w5.calls == map[1 := Wrote(t.row, row2, who2)];
    Unroll3(w3, es[3..]);
    assert es[3..][3..] == [];
    var u := Step(w5, es[5]);
    assert u.t.history == t.history + [Entry(t.row, row1, who)] + [Entry(t.row, row2, who2)];
    ChainLink(u.t, |t.history|);
    assert Table(t.row, t.history) == t;
    if Chain(t) && row1 == t.row.value {
      ChainGrows(t.row, t.history, Entry(t.row, row1, who));
      ChainGrows(t.row, t.history + [Entry(t.row, row1, who)], Entry(t.row, row2, who2));
    }
  }

  lemma OverlapFirst(t: Table, env: Env, x: Patch, who: nat, x2: Patch, who2: nat)
    ensures var row1 := NewRow(t.row, env, x, who);
      t.row.Some? ==>
      Step(Step(Step(World(t, map[], 0), Read(0, x, who)), Read(1, x2, who2)), Write(0, env))
        == World(t.(row := Some(row1)),
                 map[0 := Wrote(t.row, row1, who), 1 := HasRead(t.row, x2, who2, 0)], 1)
  {
    hide NewRow;
    var w2 := Step(Step(World(t, map[], 0), Read(0, x, who)), Read(1, x2, who2));
    assert w2.calls == map[0 := HasRead(t.row, x, who, 0), 1 := HasRead(t.row, x2, who2, 0)];
  }

  lemma ChainLink(t: Table, i: nat)
    requires i + 1 < |t.history|
    ensures Chain(t) ==> t.history[i + 1].prev == Some(t.history[i].next)
  {}

  // ------------------------------------------------------------------ effective policy

  datatype Source = FromOverride | FromAddon | FromPlan | FromDefault

  datatype Effective = Effective(p: Policy, policyId: Option<nat>, source: Source)

  function GetEffective(row: Option<Row>, plan: B.Plan): Effective {
    match row
    case None => Effective(PlanDefaults(plan), None, FromPlan)
    case Some(r) =>
      var source := if r.p.adminOverride then FromOverride else if r.p.addon then FromAddon
                    else if r.p.included then FromPlan else FromDefault;
      Effective(r.p.(frequency := if r.p.frequency != "" then r.p.frequency else "none",
                     retention := if r.p.retention != "" then r.p.retention else "manual_limited",
                     ttlHours := OrInt(r.p.ttlHours, 24), maxManual := OrInt(r.p.maxManual, 2),
                     maxStorage := OrInt(r.p.maxStorage, 2048), maxTotal := OrInt(r.p.maxTotal, 2048)),
                Some(r.policyId), source)
  }

  /** After any run, a stored policy is read back as stored exactly when none of its four
      numbers is zero; a stored zero reads as the default. */
  lemma StoredZerosReadAsDefaults(cs: seq<Call>, plan: B.Plan)
    requires Run(EMPTY, cs).row.Some?
    ensures var p := Run(EMPTY, cs).row.value.p;
      var e := GetEffective(Run(EMPTY, cs).row, plan).p;
      && (e == p <==> p.ttlHours != 0 && p.maxManual != 0 && p.maxStorage != 0 && p.maxTotal != 0)
      && (p.maxManual == 0 ==> e.maxManual == 2) && (p.ttlHours == 0 ==> e.ttlHours == 24)
  {
    RunKeepsWorded(EMPTY, cs);
  }

  /** Creating a policy row without asking for any change keeps the effective policy exactly
      for the plans that allow manual backups: the stored limit 0 of the others reads as 2. */
  lemma CreatingARowChangesTheLimit(env: Env, who: nat)
    requires env.known
    ensures var u := Upsert(EMPTY, env, NO_PATCH, who, NoFault).0;
      var before, after := GetEffective(None, env.plan).p, GetEffective(u.row, env.plan).p;
      && (after == before <==> B.ManualPlan(env.plan))
      && (!B.ManualPlan(env.plan) ==> before.maxManual == 0 && after.maxManual == 2)
  {}
}
