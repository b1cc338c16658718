/** What one call of the backup policy service does to each field: a given argument is stored,
    a missing one leaves the field as it was; a new row starts from the defaults of the plan. */
module PolicyFields {
  import opened Prelude
  import opened BackupPolicy
  import B = BackupStore

  /** `p` is `base` with the arguments `x`: field by field, none depending on another. */
  ghost predicate Takes(p: Policy, x: Patch, base: Policy) {
    && p.automatic == (match x.automatic case Some(v) => v case None => base.automatic)
    && p.manual == (match x.manual case Some(v) => v case None => base.manual)
    && p.frequency == (match x.frequency case Some(v) => if v == "" then base.frequency else v case None => base.frequency)
    && p.retention == (match x.retention case Some(v) => if v == "" then base.retention else v case None => base.retention)
    && p.ttlHours == (match x.ttlHours case Some(v) => v case None => base.ttlHours)
    && p.maxManual == (match x.maxManual case Some(v) => v case None => base.maxManual)
    && p.maxStorage == (match x.maxStorage case Some(v) => v case None => base.maxStorage)
    && p.maxTotal == (match x.maxTotal case Some(v) => v case None => base.maxTotal)
    && p.adminOverride == (match x.adminOverride case Some(v) => v case None => base.adminOverride)
    && p.addon == (match x.addon case Some(v) => v case None => base.addon)
    && p.included == (match x.included case Some(v) => v case None => base.included)
    && p.paused == (match x.paused case Some(v) => v case None => base.paused)
    && p.pausedReason == (match x.pausedReason case Some(v) => Some(v) case None => base.pausedReason)
  }

  /** An update of an existing row stores exactly the arguments it was given, who gave them and
      when, and records the old row and the new one. */
  lemma UpdateExactly(t: Table, env: Env, x: Patch, who: nat)
    requires t.row.Some? && env.known
    ensures var (u, o) := Upsert(t, env, x, who, NoFault);
      && o.Saved? && u.row == Some(o.row) && u.history == t.history + [Entry(t.row, o.row, who)]
      && Takes(o.row.p, x, t.row.value.p)
      && o.row.policyId == t.row.value.policyId && o.row.updatedBy == who && o.row.updatedAt == env.now
  {}

  /** The defaults of a plan. */
  ghost predicate DefaultsOf(plan: B.Plan, p: Policy) {
    && (plan in {B.AgenciaPro, B.Enterprise, B.EnterpriseAnnual, B.EnterpriseMonthly} ==>
          p == Policy(true, true, "daily", "latest_only", 24, 2, 2048, 2048, false, false, true, false, None))
    && (plan == B.Negocio ==>
          p == Policy(false, true, "manual", "manual_limited", 24, 1, 2048, 2048, false, false, true, false, None))
    && (plan == B.Agencia ==>
          p == Policy(false, true, "manual", "manual_limited", 24, 2, 2048, 2048, false, false, true, false, None))
    && (plan in {B.Free, B.Personal, B.OtherPlan} ==>
          p == Policy(false, false, "none", "manual_limited", 24, 0, 2048, 2048, false, false, false, false, None))
  }

  /** The first call for a hosting stores its arguments over the defaults of the plan. */
  lemma CreateExactly(t: Table, env: Env, x: Patch, who: nat, base: Policy)
    requires t.row.None? && env.known && DefaultsOf(env.plan, base)
    ensures var (u, o) := Upsert(t, env, x, who, NoFault);
      && o.Saved? && u.row == Some(o.row) && u.history == t.history + [Entry(None, o.row, who)]
      && Takes(o.row.p, x, base)
      && o.row.policyId == env.freshId && o.row.updatedBy == who && o.row.updatedAt == env.now
  {}

  /** An unknown hosting and a failing write change nothing; a failing history entry leaves the
      row written and the history as it was. */
  lemma FaultsExactly(t: Table, env: Env, x: Patch, who: nat, fault: Fault)
    ensures var (u, o) := Upsert(t, env, x, who, fault);
      && (o == NotFound <==> !env.known)
      && (o == WriteRaised <==> env.known && fault == OnWrite)
      && (o == HistoryRaised <==> env.known && fault == OnHistory)
      && (o in {NotFound, WriteRaised} ==> u == t)
      && (o == HistoryRaised ==> u.history == t.history && u.row == Upsert(t, env, x, who, NoFault).0.row)
  {}

  /** A revert of an entry that is not there is refused; of one that is, it is an update with
      the values of the snapshot, the reason of a pause only if the snapshot has one. */
  lemma RevertExactly(t: Table, env: Env, historyId: nat, who: nat)
    requires env.known && t.row.Some?
    ensures var (u, o) := Revert(t, env, historyId, who, NoFault);
      && (historyId >= |t.history| ==> o == NotFound && u == t)
      && (historyId < |t.history| ==>
            && o.Saved? && u.row == Some(o.row)
            && (match t.history[historyId].prev
                case None => o.row.p == t.row.value.p
                case Some(r) =>
                  var reason := if r.p.pausedReason.Some? then r.p.pausedReason else t.row.value.p.pausedReason;
                  r.p.frequency != "" && r.p.retention != "" ==> o.row.p == r.p.(pausedReason := reason)))
  {}

  /** The arguments y over the arguments x; an empty text counts as not given. */
  function Over(x: Patch, y: Patch): Patch {
    Patch(Later(x.automatic, y.automatic), Later(x.manual, y.manual),
          LaterText(x.frequency, y.frequency), LaterText(x.retention, y.retention),
          Later(x.ttlHours, y.ttlHours), Later(x.maxManual, y.maxManual),
          Later(x.maxStorage, y.maxStorage), Later(x.maxTotal, y.maxTotal),
          Later(x.adminOverride, y.adminOverride), Later(x.addon, y.addon), Later(x.included, y.included),
          Later(x.paused, y.paused), Later(x.pausedReason, y.pausedReason))
  }

  function Later<T>(x: Option<T>, y: Option<T>): Option<T> { if y.Some? then y else x }

  function LaterText(x: Option<string>, y: Option<string>): Option<string> {
    if y.Some? && y.value != "" then y else x
  }

  /** Two updates one after the other are one update with the later arguments over the earlier,
      for a hosting with or without a row. */
  lemma UpdatesCompose(t: Table, env: Env, x: Patch, who: nat, env2: Env, y: Patch, who2: nat)
    requires env.known && env2.known && env.plan == env2.plan
    ensures var u := Upsert(t, env, x, who, NoFault).0;
      var both := Upsert(u, env2, y, who2, NoFault).1;
      var once := Upsert(t, env2, Over(x, y), who2, NoFault).1;
      both.Saved? && once.Saved? && both.row.p == once.row.p
  {
    PatchedTwice(if t.row.Some? then t.row.value.p else PlanDefaults(env.plan), x, y);
    hide Patched, Over, PlanDefaults;
  }

  lemma PatchedTwice(base: Policy, x: Patch, y: Patch)
    ensures Patched(Patched(base, x), y) == Patched(base, Over(x, y))
  {}

  /** The effective policy: without a row the defaults of the plan; with one its fields, a zero
      or an empty text read as a default; and where it comes from, in order of precedence. */
  lemma EffectiveExactly(row: Option<Row>, plan: B.Plan, base: Policy)
    requires DefaultsOf(plan, base)
    ensures var e := GetEffective(row, plan);
      && (row.None? ==> e.p == base && e.policyId == None && e.source == FromPlan)
      && (row.Some? ==>
            var p := row.value.p;
            && e.policyId == Some(row.value.policyId)
            && e.p.automatic == p.automatic && e.p.manual == p.manual
            && e.p.frequency == (if p.frequency == "" then "none" else p.frequency)
            && e.p.retention == (if p.retention == "" then "manual_limited" else p.retention)
            && e.p.ttlHours == (if p.ttlHours == 0 then 24 else p.ttlHours)
            && e.p.maxManual == (if p.maxManual == 0 then 2 else p.maxManual)
            && e.p.maxStorage == (if p.maxStorage == 0 then 2048 else p.maxStorage)
            && e.p.maxTotal == (if p.maxTotal == 0 then 2048 else p.maxTotal)
            && e.p.adminOverride == p.adminOverride && e.p.addon == p.addon && e.p.included == p.included
            && e.p.paused == p.paused && e.p.pausedReason == p.pausedReason
            && (e.source == FromOverride <==> p.adminOverride)
            && (e.source == FromAddon <==> !p.adminOverride && p.addon)
            && (e.source == FromPlan <==> !p.adminOverride && !p.addon && p.included)
            && (e.source == FromDefault <==> !p.adminOverride && !p.addon && !p.included))
  {}
}
