/** AI usage quotas over calendar windows: app/services/ai_quota_service.py.

    Everything is for one user and one feature.  The web server's clock and the
    database's NOW() are the same UTC clock, to the second. */
module AiQuota {
  import opened Prelude
  import A = Admission

  datatype Stamp = Stamp(year: nat, month: nat, day: nat, sec: nat)

  predicate Leap(y: nat) { y % 4 == 0 && (y % 100 != 0 || y % 400 == 0) }

  function DaysIn(y: nat, m: nat): nat {
    if m == 2 then (if Leap(y) then 29 else 28)
    else if m == 4 || m == 6 || m == 9 || m == 11 then 30 else 31
  }

  predicate Valid(t: Stamp) {
    1 <= t.month <= 12 && 1 <= t.day <= DaysIn(t.year, t.month) && t.sec < 86400
  }

  /** Position of a stamp on a grid of months of 31 days: it orders valid stamps. */
  function Key(t: Stamp): int { ((t.year * 12 + t.month) * 31 + t.day) * 86400 + t.sec }

  lemma KeyOrders(a: Stamp, b: Stamp)
    requires Valid(a) && Valid(b)
    ensures Key(a) < Key(b) <==>
      || a.year < b.year
      || (a.year == b.year && a.month < b.month)
      || (a.year == b.year && a.month == b.month && a.day < b.day)
      || (a.year == b.year && a.month == b.month && a.day == b.day && a.sec < b.sec)
    ensures Key(a) == Key(b) <==> a == b
  {
    assert a.year < b.year ==> a.year * 12 + a.month < b.year * 12 + b.month;
    assert b.year < a.year ==> b.year * 12 + b.month < a.year * 12 + a.month;
  }

  datatype Window = AllTime | Day | Month

  function DayStart(now: Stamp): Stamp { now.(sec := 0) }

  function MonthStart(now: Stamp): Stamp { now.(day := 1, sec := 0) }

  function WindowStart(w: Window, now: Stamp): Stamp {
    match w
    case AllTime => Stamp(2020, 1, 1, 0)
    case Day => DayStart(now)
    case Month => MonthStart(now)
  }

  function NextDay(t: Stamp): Stamp {
    if t.day < DaysIn(t.year, t.month) then Stamp(t.year, t.month, t.day + 1, 0)
    else if t.month < 12 then Stamp(t.year, t.month + 1, 1, 0)
    else Stamp(t.year + 1, 1, 1, 0)
  }

  function NextMonth(t: Stamp): Stamp {
    if t.month == 12 then Stamp(t.year + 1, 1, 1, 0) else Stamp(t.year, t.month + 1, 1, 0)
  }

  datatype Use = Use(at: Stamp, units: nat)

  function Count(uses: seq<Use>, since: Stamp): nat {
    if uses == [] then 0
    else Count(uses[..|uses| - 1], since)
         + if Key(since) <= Key(uses[|uses| - 1].at) then uses[|uses| - 1].units else 0
  }

  /** `limit` is included_ai_queries_month, 0 for a plan that is not in the table. */
  datatype Plan = FreePlan | Paid(limit: int)

  const TRIAL_TOTAL := 10
  const DAILY_LIMIT := 3

  datatype Outcome = Allowed | Exceeded(limit: int, used: nat, resetAt: Option<Stamp>)

  function Check(uses: seq<Use>, now: Stamp, plan: Plan): Outcome {
    match plan
    case FreePlan =>
      var total := Count(uses, WindowStart(AllTime, now));
      var daily := Count(uses, DayStart(now));
      if total >= TRIAL_TOTAL then Exceeded(TRIAL_TOTAL, total, None)
      else if daily >= DAILY_LIMIT then Exceeded(DAILY_LIMIT, daily, Some(NextDay(now)))
      else Allowed
    case Paid(limit) =>
      var used := Count(uses, MonthStart(now));
      if limit <= 0 || used < limit then Allowed
      else Exceeded(limit, used, Some(NextMonth(now)))
  }

  class Quota {
    var uses: seq<Use>

    constructor ()
      ensures uses == []
    {
      uses := [];
    }

    method CountUsage(since: Stamp) returns (total: nat)
      ensures total == Count(uses, since)
    {
      total := 0;
      for k := 0 to |uses|
        invariant total == Count(uses[..k], since)
      {
        assert uses[..k + 1][..k] == uses[..k];
        if Key(since) <= Key(uses[k].at) { total := total + uses[k].units; }
      }
      assert uses[..|uses|] == uses;
    }

    method CheckAiQuota(now: Stamp, plan: Plan) returns (r: Outcome)
      ensures r == Check(uses, now, plan)
    {
      if plan.FreePlan? {
        var total := CountUsage(Stamp(2020, 1, 1, 0));
        if total >= TRIAL_TOTAL { return Exceeded(TRIAL_TOTAL, total, None); }
        var dayStart := now.(sec := 0);
        var daily := CountUsage(dayStart);
        if daily >= DAILY_LIMIT { return Exceeded(DAILY_LIMIT, daily, Some(NextDay(dayStart))); }
      } else {
        if plan.limit <= 0 { return Allowed; }
        var used := CountUsage(now.(day := 1, sec := 0));
        if used >= plan.limit { return Exceeded(plan.limit, used, Some(NextMonth(now))); }
      }
      return Allowed;
    }

    /** A failing INSERT is logged and swallowed. */
    method RecordAiUsage(now: Stamp, units: nat, raises: bool)
      modifies this
      ensures uses == old(uses) + if raises then [] else [Use(now, units)]
    {
      if !raises { uses := uses + [Use(now, units)]; }
    }
  }

  // ------------------------------------------------------------------- windows

  lemma NextDayValid(t: Stamp)
    requires Valid(t)
    ensures Valid(NextDay(t)) && Valid(NextMonth(t)) && Valid(DayStart(t)) && Valid(MonthStart(t))
  {}

  /** The number of a day in the Gregorian calendar; years are taken to begin in March. */
  function Ordinal(t: Stamp): int {
    YearStart(if t.month <= 2 then t.year - 1 else t.year) + MonthDays((t.month + 9) % 12) + t.day
  }

  function YearStart(y: int): int { 365 * y + y / 4 - y / 100 + y / 400 }

  function MonthDays(m: int): int { (153 * m + 2) / 5 }

  /** The next day is one day later by the Gregorian calendar, at midnight; so months have the
      lengths they should have and leap years are what they should be. */
  lemma NextDayIsOneLater(t: Stamp)
    requires Valid(t)
    ensures var u := NextDay(t); Valid(u) && Ordinal(u) == Ordinal(t) + 1 && u.sec == 0
  {
    NextDayValid(t);
    assert t.day <= DaysIn(t.year, t.month);
    hide Ordinal, DaysIn, Valid;
    DayOfMonth(t);
    if t.day < DaysIn(t.year, t.month) {
      DayOfMonth(NextDay(t));
    } else {
      MonthIsLong(t.year, t.month);
    }
  }

  /** The next month begins on its first day, after as many days as were left. */
  lemma NextMonthIsNext(t: Stamp)
    requires Valid(t)
    ensures var m := NextMonth(t);
      && m.day == 1 && m.sec == 0 && m.year * 12 + m.month == t.year * 12 + t.month + 1
      && Valid(m) && Ordinal(m) == Ordinal(t) + DaysIn(t.year, t.month) - t.day + 1
  {
    DaysAreEnough(NextMonth(t).year, NextMonth(t).month);
    MonthIsLong(t.year, t.month);
    hide Ordinal, DaysIn;
    DayOfMonth(t);
  }

  lemma DaysAreEnough(y: nat, m: nat)
    ensures DaysIn(y, 12) == 31 && DaysIn(y, 1) == 31 && 28 <= DaysIn(y, m)
  {}

  lemma DayOfMonth(t: Stamp)
    ensures Ordinal(t) == Ordinal(Stamp(t.year, t.month, 1, 0)) + t.day - 1
  {
    hide YearStart, MonthDays;
  }

  lemma MonthIsLong(y: nat, m: nat)
    requires Valid(Stamp(y, m, 1, 0))
    ensures Ordinal(if m == 12 then Stamp(y + 1, 1, 1, 0) else Stamp(y, m + 1, 1, 0))
      == Ordinal(Stamp(y, m, 1, 0)) + DaysIn(y, m)
  {
    LeapDays(y);
    hide YearStart;
    assert (m + 9) % 12 == if m <= 2 then m + 9 else m - 3;
    assert m < 12 ==> (m + 10) % 12 == if m == 1 then 11 else m - 2;
  }

  /** How many days a year has that ends with February. */
  lemma LeapDays(y: int)
    ensures YearStart(y) - YearStart(y - 1) == if y % 4 == 0 && (y % 100 != 0 || y % 400 == 0) then 366 else 365
  {
    Quarter(y);
    Century(y);
    FourCenturies(y);
  }

  lemma Quarter(y: int)
    ensures y / 4 - (y - 1) / 4 == if y % 4 == 0 then 1 else 0
  {}

  lemma Century(y: int)
    ensures y / 100 - (y - 1) / 100 == if y % 100 == 0 then 1 else 0
    ensures y % 100 == 0 ==> y % 4 == 0
  {
    var q, r := y / 100, y % 100;
    assert y == 100 * q + r;
    assert y - 1 == if r == 0 then 100 * (q - 1) + 99 else 100 * q + (r - 1);
  }

  lemma FourCenturies(y: int)
    ensures y / 400 - (y - 1) / 400 == if y % 400 == 0 then 1 else 0
    ensures y % 400 == 0 ==> y % 100 == 0
  {
    var q, r := y / 400, y % 400;
    assert y == 400 * q + r;
    assert y - 1 == if r == 0 then 400 * (q - 1) + 399 else 400 * q + (r - 1);
  }

  /** The reset time is exact: it ends the window, and no earlier instant does. */
  lemma DayEndsAtReset(now: Stamp, t: Stamp)
    requires Valid(now) && Valid(t) && Key(now) <= Key(t)
    ensures DayStart(t) == DayStart(now) <==> Key(t) < Key(NextDay(now))
  {
    NextDayValid(now);
    KeyOrders(now, t);
    KeyOrders(t, NextDay(now));
  }

  lemma MonthEndsAtReset(now: Stamp, t: Stamp)
    requires Valid(now) && Valid(t) && Key(now) <= Key(t)
    ensures MonthStart(t) == MonthStart(now) <==> Key(t) < Key(NextMonth(now))
  {
    NextDayValid(now);
    KeyOrders(now, t);
    KeyOrders(t, NextMonth(now));
  }

  /** What counts for a window: the uses of the same calendar day, of the same calendar month,
      and all of them since 2020. */
  lemma WindowsExactly(now: Stamp, t: Stamp)
    requires Valid(now) && Valid(t) && Key(t) <= Key(now)
    ensures Key(WindowStart(Day, now)) <= Key(t) <==> t.year == now.year && t.month == now.month && t.day == now.day
    ensures Key(WindowStart(Month, now)) <= Key(t) <==> t.year == now.year && t.month == now.month
    ensures Key(WindowStart(AllTime, now)) <= Key(t) <==> 2020 <= t.year
  {
    NextDayValid(now);
    KeyOrders(now, t);
    KeyOrders(t, now);
    KeyOrders(t, DayStart(now));
    KeyOrders(t, MonthStart(now));
    KeyOrders(t, Stamp(2020, 1, 1, 0));
  }

  /** A recorded call counts with its units in every window it falls in, and in no other. */
  lemma RecordedCounts(uses: seq<Use>, u: Use, since: Stamp)
    ensures Count(uses + [u], since) == Count(uses, since) + if Key(since) <= Key(u.at) then u.units else 0
  {
    assert (uses + [u])[..|uses|] == uses;
  }

  /** The limits: ten calls in all and three a day on the free plan, the plan's own number a
      month otherwise, none at all where that is not positive. */
  lemma CheckExactly(uses: seq<Use>, now: Stamp, plan: Plan)
    ensures var r := Check(uses, now, plan);
      var total, today, month :=
        Count(uses, WindowStart(AllTime, now)), Count(uses, WindowStart(Day, now)), Count(uses, WindowStart(Month, now));
      && (plan.FreePlan? && 10 <= total ==> r == Exceeded(10, total, None))
      && (plan.FreePlan? && total < 10 && 3 <= today ==> r == Exceeded(3, today, Some(NextDay(now))))
      && (plan.FreePlan? && total < 10 && today < 3 ==> r == Allowed)
      && (plan.Paid? && 0 < plan.limit <= month ==> r == Exceeded(plan.limit, month, Some(NextMonth(now))))
      && (plan.Paid? && (plan.limit <= 0 || month < plan.limit) ==> r == Allowed)
  {}

  lemma WindowsAdvance(w: Window, now: Stamp, t: Stamp)
    requires Valid(now) && Valid(t) && Key(now) <= Key(t)
    ensures Key(WindowStart(w, now)) <= Key(WindowStart(w, t))
    ensures Key(DayStart(t)) <= Key(t)
  {
    NextDayValid(now);
    NextDayValid(t);
    KeyOrders(now, t);
    KeyOrders(t, now);
    KeyOrders(DayStart(t), DayStart(now));
    KeyOrders(MonthStart(t), MonthStart(now));
  }

  lemma {:induction false} CountShrinks(uses: seq<Use>, since: Stamp, later: Stamp)
    ensures Key(since) <= Key(later) ==> Count(uses, later) <= Count(uses, since)
  {
    if uses != [] { CountShrinks(uses[..|uses| - 1], since, later); }
  }

  lemma {:induction false} CountFuture(uses: seq<Use>, since: Stamp)
    requires forall i :: 0 <= i < |uses| ==> Key(uses[i].at) < Key(since)
    ensures Count(uses, since) == 0
  {
    if uses != [] { CountFuture(uses[..|uses| - 1], since); }
  }

  /** A rejected caller who comes back at the reset time, or later, finds the window empty
      and is let in, unless the refusal was the trial total. */
  lemma ResetLetsIn(uses: seq<Use>, now: Stamp, plan: Plan, t: Stamp)
    requires Valid(now) && Valid(t) && forall i :: 0 <= i < |uses| ==> Valid(uses[i].at) && Key(uses[i].at) <= Key(now)
    requires var r := Check(uses, now, plan);
      r.Exceeded? && r.resetAt.Some? && Key(r.resetAt.value) <= Key(t)
    requires plan.FreePlan? ==> Key(Stamp(2020, 1, 1, 0)) <= Key(DayStart(now))
    ensures Check(uses, t, plan).Allowed?
  {
    hide Count;
    var r := Check(uses, now, plan);
    NextDayValid(now);
    NextDayValid(t);
    var reset := r.resetAt.value;
    KeyOrders(now, reset);
    var start := if plan.FreePlan? then DayStart(t) else MonthStart(t);
    KeyOrders(t, reset);
    KeyOrders(start, reset);
    CountFuture(uses, start);
  }

  // ------------------------------------------------------------------------ runs

  /** The windows a plan is limited in. */
  predicate Limited(plan: Plan, w: Window, limit: int) {
    match plan
    case FreePlan => (w.AllTime? && limit == TRIAL_TOTAL) || (w.Day? && limit == DAILY_LIMIT)
    case Paid(l) => w.Month? && 0 < l && limit == l
  }

  /** The check passes exactly when every limited window is below its limit; a refusal names
      such a limit, what was used of it, and when its window ends. */
  lemma CheckLooksAtEveryLimit(uses: seq<Use>, now: Stamp, plan: Plan)
    ensures Check(uses, now, plan).Allowed? <==>
      forall w, limit :: Limited(plan, w, limit) ==> Count(uses, WindowStart(w, now)) < limit
    ensures var r := Check(uses, now, plan);
      r.Exceeded? ==> exists w ::
        && Limited(plan, w, r.limit)
        && r.used == Count(uses, WindowStart(w, now)) >= r.limit
        && r.resetAt == match w case AllTime => None case Day => Some(NextDay(now)) case Month => Some(NextMonth(now))
  {
    match plan
    case FreePlan =>
      assert Limited(plan, AllTime, TRIAL_TOTAL) && Limited(plan, Day, DAILY_LIMIT);
    case Paid(l) =>
      if 0 < l { assert Limited(plan, Month, l); }
  }

  /** `pending`: calls between a passed check and their record. */
  datatype World = World(now: Stamp, uses: seq<Use>, pending: nat)

  datatype Event = Ask | Record | Drop | Clock(t: Stamp)

  /** One unit per call; Drop is an AI failure or a record that could not be written. */
  function Step(s: World, plan: Plan, e: Event): World {
    match e
    case Ask => if Check(s.uses, s.now, plan).Allowed? then s.(pending := s.pending + 1) else s
    case Record =>
      if 0 < s.pending then s.(uses := s.uses + [Use(s.now, 1)], pending := s.pending - 1) else s
    case Drop => if 0 < s.pending then s.(pending := s.pending - 1) else s
    case Clock(t) => if Valid(t) && Key(s.now) <= Key(t) then s.(now := t) else s
  }

  function Run(s: World, plan: Plan, es: seq<Event>): World
    decreases |es|
  {
    if es == [] then s else Run(Step(s, plan, es[0]), plan, es[1..])
  }

  predicate Narrow(s: World, plan: Plan, es: seq<Event>, p: nat)
    decreases |es|
  {
    s.pending <= p && (es == [] || Narrow(Step(s, plan, es[0]), plan, es[1..], p))
  }

  function Used(s: World, w: Window): nat { Count(s.uses, WindowStart(w, s.now)) }

  function Abs(s: World, w: Window): A.Gate { A.Gate(Used(s, w), s.pending) }

  function AbsEvent(s: World, plan: Plan, w: Window, e: Event): A.Event {
    match e
    case Ask => if Check(s.uses, s.now, plan).Allowed? then A.Admit else A.Skip
    case Record => A.Count
    case Drop => A.Drop
    case Clock(t) =>
      var used := Used(Step(s, plan, e), w);
      if used <= Used(s, w) then A.Release(Used(s, w) - used) else A.Skip
  }

  function AbsRun(s: World, plan: Plan, w: Window, es: seq<Event>): seq<A.Event>
    decreases |es|
  {
    if es == [] then [] else [AbsEvent(s, plan, w, es[0])] + AbsRun(Step(s, plan, es[0]), plan, w, es[1..])
  }

  /** The clock is in the period the trial counts. */
  predicate InPeriod(s: World) { Valid(s.now) && Key(Stamp(2020, 1, 1, 0)) <= Key(DayStart(s.now)) }

  lemma StepInPeriod(s: World, plan: Plan, e: Event)
    requires InPeriod(s)
    ensures InPeriod(Step(s, plan, e))
  {
    if e.Clock? && Valid(e.t) && Key(s.now) <= Key(e.t) { WindowsAdvance(Day, s.now, e.t); }
  }

  /** In each limited window one step of the service is one step of the gate. */
  lemma StepRefines(s: World, plan: Plan, w: Window, limit: int, e: Event)
    requires InPeriod(s) && Limited(plan, w, limit)
    ensures A.Step(Abs(s, w), limit, AbsEvent(s, plan, w, e)) == Abs(Step(s, plan, e), w)
  {
    match e
    case Ask => CheckLooksAtEveryLimit(s.uses, s.now, plan);
    case Record =>
      var since := WindowStart(w, s.now);
      assert Key(since) <= Key(s.now) by { SinceNow(w, s); }
      assert (s.uses + [Use(s.now, 1)])[..|s.uses|] == s.uses;
    case Drop =>
    case Clock(t) =>
      if Valid(t) && Key(s.now) <= Key(t) {
        WindowsAdvance(w, s.now, t);
        CountShrinks(s.uses, WindowStart(w, s.now), WindowStart(w, t));
      }
  }

  lemma SinceNow(w: Window, s: World)
    requires InPeriod(s)
    ensures Key(WindowStart(w, s.now)) <= Key(s.now)
  {}

  lemma {:induction false} RunRefines(s: World, plan: Plan, w: Window, limit: int, es: seq<Event>, p: nat)
    requires InPeriod(s) && Limited(plan, w, limit)
    ensures A.Run(Abs(s, w), limit, AbsRun(s, plan, w, es)) == Abs(Run(s, plan, es), w)
    ensures Narrow(s, plan, es, p) ==> A.Narrow(Abs(s, w), limit, AbsRun(s, plan, w, es), p)
    decreases |es|
  {
    hide InPeriod, Limited, Step, AbsEvent, A.Step;
    if es != [] {
      var v := Step(s, plan, es[0]);
      StepInPeriod(s, plan, es[0]);
      StepRefines(s, plan, w, limit, es[0]);
      assert AbsRun(s, plan, w, es)[1..] == AbsRun(v, plan, w, es[1..]);
      RunRefines(v, plan, w, limit, es[1..], p);
    }
  }

  /** With at most p calls between check and record, whatever the clock does in between,
      every limited window holds at most limit - 1 + p uses and pending calls. */
  lemma {:induction false} QuotaBound(now: Stamp, plan: Plan, w: Window, limit: int, es: seq<Event>, p: nat)
    requires InPeriod(World(now, [], 0)) && Limited(plan, w, limit)
    requires Narrow(World(now, [], 0), plan, es, p)
    ensures var s := Run(World(now, [], 0), plan, es); Used(s, w) + s.pending <= limit - 1 + p
  {
    var s := World(now, [], 0);
    assert Abs(s, w) == A.CLOSED;
    assert 0 < limit;
    hide Run, AbsRun, Narrow, A.Run, A.Narrow, Step, InPeriod, Limited, Count, WindowStart;
    RunRefines(s, plan, w, limit, es, p);
    A.AdmissionBound(limit, AbsRun(s, plan, w, es), p);
  }

  /** One call at a time: at most 3 uses in a day and 10 in all on the free plan, at most
      the monthly limit on the others, across every day and month change. */
  lemma {:induction false} SequentialUse(now: Stamp, plan: Plan, es: seq<Event>)
    requires InPeriod(World(now, [], 0)) && Narrow(World(now, [], 0), plan, es, 1)
    ensures var s := Run(World(now, [], 0), plan, es);
      match plan
      case FreePlan => Used(s, Day) <= DAILY_LIMIT && Used(s, AllTime) <= TRIAL_TOTAL
      case Paid(l) => 0 < l ==> Used(s, Month) <= l
  {
    match plan
    case FreePlan =>
      assert Limited(plan, Day, DAILY_LIMIT) && Limited(plan, AllTime, TRIAL_TOTAL);
      hide Run, Narrow, Step, InPeriod, Limited, Count, WindowStart;
      QuotaBound(now, plan, Day, DAILY_LIMIT, es, 1);
      QuotaBound(now, plan, AllTime, TRIAL_TOTAL, es, 1);
    case Paid(l) =>
      if 0 < l {
        assert Limited(plan, Month, l);
        hide Run, Narrow, Step, InPeriod, Limited, Count, WindowStart;
        QuotaBound(now, plan, Month, l, es, 1);
      }
  }
}
