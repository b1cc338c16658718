/** Expiry dates and the rate-limited warnings before them, one free hosting:
    app/services/expiration_job.py.  Instants are in seconds. */
module ExpiryWarnings {
  import opened Prelude

  const DAY := 86400
  const FREE_PLAN_DAYS := 14

  /** plan_expires_at of the user: not set, containing "2099", not a date, or a date. */
  datatype Override = NotSet | Forever | Unreadable | At(t: int)

  /** Seconds to the expiry; None for a hosting that is skipped. */
  function Remaining(created: int, o: Override, now: int): Option<int> {
    match o
    case NotSet => Some(FREE_PLAN_DAYS * DAY - (now - created))
    case At(t) => Some(t - now)
    case _ => None
  }

  datatype Visit = Skipped | Expire | Warned | Quiet | LogRaised

  /** One look of the job at the hosting.  `warnings` are the stamps of its
      PLAN_EXPIRING_SOON events, newest last; `stamp` is the clock when one is logged. */
  function Look(warnings: seq<int>, created: int, o: Override, now: int, stamp: int, logRaises: bool): (seq<int>, Visit) {
    match Remaining(created, o, now)
    case None => (warnings, Skipped)
    case Some(left) =>
      if left <= 0 then (warnings, Expire)
      else if left > 3 * DAY then (warnings, Quiet)
      else if warnings != [] && now - warnings[|warnings| - 1] < DAY then (warnings, Quiet)
      else if logRaises then (warnings, LogRaised)
      else (warnings + [stamp], Warned)
  }

  class FreeHosting {
    const created: int
    var warnings: seq<int>

    constructor (created: int)
      ensures this.created == created && warnings == []
    {
      this.created := created;
      warnings := [];
    }

    method JobLooks(o: Override, now: int, stamp: int, logRaises: bool) returns (r: Visit)
      modifies this`warnings
      ensures (warnings, r) == Look(old(warnings), created, o, now, stamp, logRaises)
    {
      if o.Forever? || o.Unreadable? { return Skipped; }
      var left := if o.At? then o.t - now else FREE_PLAN_DAYS * DAY - (now - created);
      if left <= 0 { return Expire; }
      if left <= 3 * DAY {
        var canWarn := true;
        if warnings != [] {
          if now - warnings[|warnings| - 1] < DAY { canWarn := false; }
        }
        if canWarn {
          if logRaises { return LogRaised; }
          warnings := warnings + [stamp];
          return Warned;
        }
      }
      return Quiet;
    }
  }

  // ----------------------------------------------------------------------- one look

  /** What one look decides, in seconds to the date: the date the user was given, or fourteen
      days after creation.  Past it the hosting expires; in the last three days it is warned,
      unless it was within the last day; before that nothing happens. */
  lemma LookExactly(warnings: seq<int>, created: int, o: Override, now: int, stamp: int, logRaises: bool)
    ensures var (v, r) := Look(warnings, created, o, now, stamp, logRaises);
      var dated := o.NotSet? || o.At?;
      var date := if o.At? then o.t else created + 1209600;
      var recent := warnings != [] && now < warnings[|warnings| - 1] + 86400;
      var due := dated && date - 259200 <= now < date && !recent;
      && (r == Skipped <==> !dated)
      && (r == Expire <==> dated && date <= now)
      && (r == Warned <==> due && !logRaises) && (r == LogRaised <==> due && logRaises)
      && v == warnings + (if due && !logRaises then [stamp] else [])
  {}

  // ------------------------------------------------------------------------ runs

  /** One run of the job: its `now`, and when the warning is logged. */
  datatype Job = Job(now: int, stamp: int, logRaises: bool)

  /** Jobs one after the other, stamps after the job's start. */
  predicate InOrder(jobs: seq<Job>) {
    && (forall k :: 0 <= k < |jobs| ==> jobs[k].now <= jobs[k].stamp)
    && (forall k, m :: 0 <= k < m < |jobs| ==> jobs[k].stamp <= jobs[m].now)
  }

  function Run(created: int, o: Override, jobs: seq<Job>): seq<int> {
    if jobs == [] then []
    else
      var j := jobs[|jobs| - 1];
      Look(Run(created, o, jobs[..|jobs| - 1]), created, o, j.now, j.stamp, j.logRaises).0
  }

  /** The start of the job that logged each warning. */
  function Starts(created: int, o: Override, jobs: seq<Job>): (r: seq<int>)
    ensures |r| == |Run(created, o, jobs)|
  {
    if jobs == [] then []
    else
      var j := jobs[|jobs| - 1];
      var before := Run(created, o, jobs[..|jobs| - 1]);
      Starts(created, o, jobs[..|jobs| - 1])
      + if Look(before, created, o, j.now, j.stamp, j.logRaises).1.Warned? then [j.now] else []
  }

  /** The expiry instant of a hosting that has one. */
  function Expiry(created: int, o: Override): int
    requires o.NotSet? || o.At?
  {
    if o.At? then o.t else created + FREE_PLAN_DAYS * DAY
  }

  /** Each warning starts a day or more after the one before was logged. */
  predicate Spaced(stamps: seq<int>, starts: seq<int>)
    requires |starts| == |stamps|
  {
    && (forall k :: 0 <= k < |stamps| ==> starts[k] <= stamps[k])
    && (forall k :: 0 <= k < |stamps| - 1 ==> stamps[k] + DAY <= starts[k + 1])
  }

  /** Every warning comes from a job within the last three days before the expiry. */
  predicate InTime(starts: seq<int>, created: int, o: Override) {
    forall k :: 0 <= k < |starts| ==>
      (o.NotSet? || o.At?) && Expiry(created, o) - 3 * DAY <= starts[k] < Expiry(created, o)
  }

  lemma LookKeeps(stamps: seq<int>, starts: seq<int>, created: int, o: Override, j: Job)
    requires |starts| == |stamps| && Spaced(stamps, starts) && InTime(starts, created, o) && j.now <= j.stamp
    ensures var (v, r) := Look(stamps, created, o, j.now, j.stamp, j.logRaises);
      var u := starts + if r.Warned? then [j.now] else [];
      |u| == |v| && Spaced(v, u) && InTime(u, created, o)
  {}

  lemma {:induction false} RunSpaced(created: int, o: Override, jobs: seq<Job>)
    requires InOrder(jobs)
    ensures Spaced(Run(created, o, jobs), Starts(created, o, jobs)) && InTime(Starts(created, o, jobs), created, o)
  {
    hide Look, Spaced, InTime, Expiry;
    if jobs != [] {
      var older := jobs[..|jobs| - 1];
      RunSpaced(created, o, older);
      LookKeeps(Run(created, o, older), Starts(created, o, older), created, o, jobs[|jobs| - 1]);
    } else {
      NoneSpaced(created, o);
    }
  }

  lemma NoneSpaced(created: int, o: Override)
    ensures Spaced([], []) && InTime([], created, o)
  {}

  lemma FourthIsLate(stamps: seq<int>, starts: seq<int>)
    requires |starts| == |stamps| && 3 < |stamps| && Spaced(stamps, starts)
    ensures starts[0] + 3 * DAY <= starts[3]
  {
    assert stamps[0] + DAY <= starts[0 + 1] && stamps[1] + DAY <= starts[1 + 1] && stamps[2] + DAY <= starts[2 + 1];
  }

  lemma {:induction false} Apart(stamps: seq<int>, starts: seq<int>)
    requires |starts| == |stamps| && Spaced(stamps, starts)
    ensures forall k, m :: 0 <= k < m < |stamps| ==> stamps[k] + DAY <= stamps[m]
  {
    if stamps != [] {
      var n := |stamps| - 1;
      Apart(stamps[..n], starts[..n]);
      if 0 < n { assert stamps[n - 1] + DAY <= starts[n - 1 + 1]; }
      forall k, m | 0 <= k < m < |stamps| ensures stamps[k] + DAY <= stamps[m] {
        if m < n {
          assert stamps[..n][k] + DAY <= stamps[..n][m];
        } else if k < n - 1 {
          assert stamps[..n][k] + DAY <= stamps[..n][n - 1];
        }
      }
    }
  }

  /** The job logs within so many seconds of its start. */
  predicate Prompt(jobs: seq<Job>, latency: nat) {
    forall k :: 0 <= k < |jobs| ==> jobs[k].stamp <= jobs[k].now + latency
  }

  lemma StartsMatch(created: int, o: Override, jobs: seq<Job>)
    ensures |Starts(created, o, jobs)| == |Run(created, o, jobs)|
  {}

  lemma {:induction false} RunPrompt(created: int, o: Override, jobs: seq<Job>, latency: nat)
    requires Prompt(jobs, latency)
    ensures var stamps, starts := Run(created, o, jobs), Starts(created, o, jobs);
      forall k :: 0 <= k < |stamps| ==> stamps[k] <= starts[k] + latency
  {
    if jobs != [] {
      var older, j := jobs[..|jobs| - 1], jobs[|jobs| - 1];
      RunPrompt(created, o, older, latency);
      assert j.stamp <= j.now + latency;
      var stamps, starts := Run(created, o, older), Starts(created, o, older);
      StartsMatch(created, o, older);
      var (v, r) := Look(stamps, created, o, j.now, j.stamp, j.logRaises);
      assert v == stamps + if r.Warned? then [j.stamp] else [];
      var u := starts + if r.Warned? then [j.now] else [];
      assert Run(created, o, jobs) == v && Starts(created, o, jobs) == u;
      forall k | 0 <= k < |v| ensures v[k] <= u[k] + latency {
        if k < |stamps| {
          assert v[k] == stamps[k] && u[k] == starts[k];
          assert stamps[k] <= starts[k] + latency;
        } else {
          assert v[k] == j.stamp && u[k] == j.now;
        }
      }
    } else {
      assert Run(created, o, jobs) == [];
    }
  }

  /** Under any one expiry date and any schedule of jobs, a hosting gets at most three
      warnings, any two at least 24 hours apart, each from a job that ran within the last
      three days before the expiry; so if jobs log within `latency` seconds of their start, no
      warning is stamped that long after the date or later. */
  lemma AtMostThreeWarnings(created: int, o: Override, jobs: seq<Job>, latency: nat)
    requires InOrder(jobs) && Prompt(jobs, latency)
    ensures var stamps, starts := Run(created, o, jobs), Starts(created, o, jobs);
      && |stamps| <= 3
      && (forall k, m :: 0 <= k < m < |stamps| ==> stamps[k] + DAY <= stamps[m])
      && (forall k :: 0 <= k < |starts| ==>
            (o.NotSet? || o.At?) && Expiry(created, o) - 3 * DAY <= starts[k] < Expiry(created, o))
      && (forall k :: 0 <= k < |stamps| ==>
            starts[k] <= stamps[k] <= starts[k] + latency && stamps[k] < Expiry(created, o) + latency)
  {
    hide Run, Starts, Spaced, Prompt;
    RunSpaced(created, o, jobs);
    RunPrompt(created, o, jobs, latency);
    var stamps, starts := Run(created, o, jobs), Starts(created, o, jobs);
    if 3 < |stamps| { FourthIsLate(stamps, starts); }
    Apart(stamps, starts);
    forall k | 0 <= k < |stamps|
      ensures starts[k] <= stamps[k] <= starts[k] + latency && stamps[k] < Expiry(created, o) + latency
    {
      StampFollows(stamps, starts, k);
      assert starts[k] < Expiry(created, o);
    }
  }

  lemma StampFollows(stamps: seq<int>, starts: seq<int>, k: nat)
    requires k < |starts| == |stamps| && Spaced(stamps, starts)
    ensures starts[k] <= stamps[k]
  {}

  /** A slow job stamps a warning after the date: for every latency the bound is reached. */
  lemma LateStamp(created: int, latency: nat)
    requires 0 < latency
    ensures var e := Expiry(created, NotSet);
      Run(created, NotSet, [Job(e - 1, e - 1 + latency, false)]) == [e - 1 + latency]
  {
    var e := Expiry(created, NotSet);
    var jobs := [Job(e - 1, e - 1 + latency, false)];
    assert jobs[..0] == [];
  }

  /** A job that runs every hour: `n` jobs from instant t on. */
  function Hourly(t: int, n: nat): seq<Job> {
    if n == 0 then [] else Hourly(t, n - 1) + [Job(t + 3600 * (n - 1), t + 3600 * (n - 1), false)]
  }

  /** The warnings it has logged by then. */
  function Daily(t: int, n: nat): seq<int> {
    if n == 0 then [] else if n <= 24 then [t] else if n <= 48 then [t, t + DAY] else [t, t + DAY, t + 2 * DAY]
  }

  lemma HourlyLook(created: int, o: Override, n: nat)
    requires n < 72 && (o.NotSet? || o.At?)
    ensures var t := Expiry(created, o) - 3 * DAY;
      Look(Daily(t, n), created, o, t + 3600 * n, t + 3600 * n, false).0 == Daily(t, n + 1)
  {}

  lemma {:induction false} HourlyShape(created: int, o: Override, n: nat)
    requires n <= 72 && (o.NotSet? || o.At?)
    ensures var t := Expiry(created, o) - 3 * DAY; Run(created, o, Hourly(t, n)) == Daily(t, n)
  {
    hide Look, Daily;
    var t := Expiry(created, o) - 3 * DAY;
    if n > 0 {
      HourlyShape(created, o, n - 1);
      HourlyLook(created, o, n - 1);
      HourlyLength(t, n - 1);
      assert Hourly(t, n)[..n - 1] == Hourly(t, n - 1);
    } else {
      assert Daily(t, 0) == [] by { DailyNone(t); }
    }
  }

  lemma DailyNone(t: int)
    ensures Daily(t, 0) == []
  {}

  lemma {:induction false} HourlyLength(t: int, n: nat)
    ensures |Hourly(t, n)| == n
  {
    if n > 0 { HourlyLength(t, n - 1); }
  }

  /** Three is reached, under the plan's date or one set for the user: an hourly job over the
      last three days warns exactly three times, a day apart. */
  lemma ThreeIsReached(created: int, o: Override)
    requires o.NotSet? || o.At?
    ensures var date := if o.At? then o.t else created + 1209600;
      Run(created, o, Hourly(date - 259200, 72)) == [date - 259200, date - 172800, date - 86400]
  {
    HourlyShape(created, o, 72);
  }

  /** The job never expires a hosting before its date, nor warns one without a date. */
  lemma ExpiresOnTime(warnings: seq<int>, created: int, o: Override, now: int, stamp: int, logRaises: bool)
    ensures var r := Look(warnings, created, o, now, stamp, logRaises).1;
      && (r.Expire? <==> (o.NotSet? || o.At?) && Expiry(created, o) <= now)
      && (r.Skipped? <==> o.Forever? || o.Unreadable?)
  {}
}
