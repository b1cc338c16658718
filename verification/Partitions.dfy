/** Monthly partitions of pixel_events: ensure_monthly_partitions in
    app/infra/migrations.py. */
module Partitions {
  /** Years have four digits, and the two months after `now` are still in range. */
  datatype Month = Month(year: int, month: int)

  predicate Valid(m: Month) { 1000 <= m.year <= 9999 && 1 <= m.month <= 12 }

  /** Months since year 0. */
  function Index(m: Month): int { m.year * 12 + m.month - 1 }

  lemma IndexIsInjective(a: Month, b: Month)
    requires Valid(a) && Valid(b)
    ensures Index(a) == Index(b) <==> a == b
  {}

  /** The computation in the loop: k months after m. */
  function Later(m: Month, k: int): Month
    requires 0 <= k && 1 <= m.month
  {
    var target := m.month + k;
    Month(m.year + (target - 1) / 12, (target - 1) % 12 + 1)
  }

  function Digit(d: int): char
    requires 0 <= d <= 9
  {
    ('0' as int + d) as char
  }

  /** strftime("%Y_%m"). */
  function Suffix(m: Month): string
    requires Valid(m)
  {
    [Digit(m.year / 1000), Digit(m.year / 100 % 10), Digit(m.year / 10 % 10), Digit(m.year % 10), '_',
     Digit(m.month / 10), Digit(m.month % 10)]
  }

  function Name(m: Month): string
    requires Valid(m)
  {
    "pixel_events_" + Suffix(m)
  }

  /** FOR VALUES FROM (first of lo) TO (first of hi). */
  datatype Range = Range(lo: Month, hi: Month)

  type Tables = map<string, Range>

  /** CREATE TABLE IF NOT EXISTS for month k after now. */
  function Create(t: Tables, now: Month, k: int): Tables
    requires Valid(now) && 0 <= k && Valid(Later(now, k))
  {
    var start := Later(now, k);
    if Name(start) in t then t else t[Name(start) := Range(start, Later(start, 1))]
  }

  /** The date is early enough for all the months the call computes. */
  predicate InRange(now: Month) { Valid(now) && now.year < 9999 }

  lemma LaterValid(now: Month, k: int)
    requires InRange(now) && 0 <= k <= 3
    ensures Valid(Later(now, k)) && Index(Later(now, k)) == Index(now) + k
  {}

  /** After `done` of the three statements; an exception stops the loop. */
  function Ensure(t: Tables, now: Month, done: nat): Tables
    requires InRange(now) && done <= 3
  {
    if done == 0 then t
    else
      LaterValid(now, done - 1);
      Create(Ensure(t, now, done - 1), now, done - 1)
  }

  class Catalog {
    var tables: Tables
    var hasDefault: bool

    constructor ()
      ensures tables == map[] && !hasDefault
    {
      tables, hasDefault := map[], false;
    }

    /** `done`: the statements that succeed before one raises, 4 if none does. */
    method EnsureMonthlyPartitions(now: Month, isPartitioned: bool, done: nat)
      requires InRange(now)
      modifies this
      ensures tables == if isPartitioned then Ensure(old(tables), now, if done < 3 then done else 3) else old(tables)
      ensures hasDefault == (old(hasDefault) || (isPartitioned && 4 <= done))
    {
      hide Name;
      if !isPartitioned { return; }
      var delta := 0;
      while delta < 3
        invariant 0 <= delta <= 3 && delta <= done && hasDefault == old(hasDefault)
        invariant tables == Ensure(old(tables), now, delta)
      {
        if done <= delta { return; }
        LaterValid(now, delta);
        var targetMonth := now.month + delta;
        var targetYear := now.year + (targetMonth - 1) / 12;
        targetMonth := (targetMonth - 1) % 12 + 1;
        var start := Month(targetYear, targetMonth);
        var nextMonth := targetMonth + 1;
        var nextYear := targetYear + (nextMonth - 1) / 12;
        nextMonth := (nextMonth - 1) % 12 + 1;
        var end := Month(nextYear, nextMonth);
        assert start == Later(now, delta) && end == Later(start, 1);
        if Name(start) !in tables { tables := tables[Name(start) := Range(start, end)]; }
        delta := delta + 1;
      }
      if 4 <= done { hasDefault := true; }
    }
  }

  // ------------------------------------------------------------------- calendar

  /** The computed ranges are consecutive months: each ends where the next starts. */
  lemma RangesAreConsecutive(now: Month, k: int)
    requires InRange(now) && 0 <= k <= 2
    ensures var start := Later(now, k);
      && Valid(start) && Index(start) == Index(now) + k
      && Later(start, 1) == Later(now, k + 1)
      && Index(Later(start, 1)) == Index(start) + 1
  {
    LaterValid(now, k);
    LaterValid(now, k + 1);
  }

  lemma DigitIsInjective(a: int, b: int)
    requires 0 <= a <= 9 && 0 <= b <= 9
    ensures Digit(a) == Digit(b) <==> a == b
  {
    assert Digit(a) as int == '0' as int + a && Digit(b) as int == '0' as int + b;
  }

  lemma Decimal(a: int)
    requires 1000 <= a <= 9999
    ensures a == 1000 * (a / 1000) + 100 * (a / 100 % 10) + 10 * (a / 10 % 10) + a % 10
  {
    assert a == 10 * (a / 10) + a % 10;
    var b := a / 10;
    assert b == 10 * (b / 10) + b % 10 && b / 10 == a / 100;
    var c := a / 100;
    assert c == 10 * (c / 10) + c % 10 && c / 10 == a / 1000;
  }

  /** Two months have the same table name only if they are the same month. */
  lemma NameIsInjective(a: Month, b: Month)
    requires Valid(a) && Valid(b) && Name(a) == Name(b)
    ensures a == b
  {
    var s, t := Suffix(a), Suffix(b);
    assert Name(a)[13..] == s && Name(b)[13..] == t;
    SameSuffix(a, b);
  }

  lemma SameSuffix(a: Month, b: Month)
    requires Valid(a) && Valid(b) && Suffix(a) == Suffix(b)
    ensures a == b
  {
    hide Digit;
    var s, t := Suffix(a), Suffix(b);
    assert s[0] == t[0] && s[1] == t[1] && s[2] == t[2] && s[3] == t[3] && s[5] == t[5] && s[6] == t[6];
    DigitIsInjective(a.year / 1000, b.year / 1000);
    DigitIsInjective(a.year / 100 % 10, b.year / 100 % 10);
    DigitIsInjective(a.year / 10 % 10, b.year / 10 % 10);
    DigitIsInjective(a.year % 10, b.year % 10);
    DigitIsInjective(a.month / 10, b.month / 10);
    DigitIsInjective(a.month % 10, b.month % 10);
    Decimal(a.year);
    Decimal(b.year);
    assert a.month == 10 * (a.month / 10) + a.month % 10 && b.month == 10 * (b.month / 10) + b.month % 10;
  }

  // ------------------------------------------------------------------------ runs

  /** An instant: its month and the seconds into it. */
  datatype Instant = Instant(m: Month, offset: nat)

  /** first of `m` <= x. */
  predicate FromFirstOf(m: Month, x: Instant) { Index(m) <= Index(x.m) }

  predicate Contains(r: Range, x: Instant) { FromFirstOf(r.lo, x) && !FromFirstOf(r.hi, x) }

  /** Every table is named for its month and holds exactly that month. */
  ghost predicate Sound(t: Tables) {
    forall n :: n in t ==>
      Valid(t[n].lo) && n == Name(t[n].lo) && t[n].hi == Later(t[n].lo, 1) && Index(t[n].hi) == Index(t[n].lo) + 1
  }

  /** A call at `now` of which the first `done` statements took effect. */
  datatype Call = Call(now: Month, done: nat)

  predicate CallOk(c: Call) { InRange(c.now) && c.done <= 3 }

  function Run(t: Tables, cs: seq<Call>): Tables
    requires forall i :: 0 <= i < |cs| ==> CallOk(cs[i])
  {
    if cs == [] then t
    else
      assert CallOk(cs[|cs| - 1]);
      Ensure(Run(t, cs[..|cs| - 1]), cs[|cs| - 1].now, cs[|cs| - 1].done)
  }

  /** The month of x is one of those the call reached. */
  predicate Reaches(c: Call, x: Instant) { Index(c.now) <= Index(x.m) < Index(c.now) + c.done }

  /** A table that is skipped because its name exists already has the range that would have
      been given to it. */
  lemma CreateKeepsSound(t: Tables, now: Month, k: int)
    requires Sound(t) && InRange(now) && 0 <= k <= 2 && Valid(Later(now, k))
    ensures var u := Create(t, now, k);
      && Sound(u) && Name(Later(now, k)) in u
      && u[Name(Later(now, k))] == Range(Later(now, k), Later(now, k + 1))
      && (forall n :: n in t ==> n in u && u[n] == t[n])
      && (forall n :: n in u && n !in t ==> n == Name(Later(now, k)))
  {
    hide Name, Later;
    var start := Later(now, k);
    RangesAreConsecutive(now, k);
    if Name(start) in t { NameIsInjective(t[Name(start)].lo, start); }
  }

  /** Which instants some table holds. */
  predicate Held(t: Tables, x: Instant) { exists n :: n in t && Contains(t[n], x) }

  lemma CreateHolds(t: Tables, now: Month, k: int, x: Instant)
    requires Sound(t) && InRange(now) && 0 <= k <= 2 && Valid(Later(now, k))
    ensures Held(Create(t, now, k), x) <==> Held(t, x) || Index(x.m) == Index(now) + k
  {
    hide Name, Later, Create, Index, Sound;
    CreateKeepsSound(t, now, k);
    RangesAreConsecutive(now, k);
    var u := Create(t, now, k);
    var name := Name(Later(now, k));
    if Index(x.m) == Index(now) + k { assert Contains(u[name], x); }
    if Held(t, x) {
      var n :| n in t && Contains(t[n], x);
      assert Contains(u[n], x);
    }
    if Held(u, x) {
      var n :| n in u && Contains(u[n], x);
      if n in t { assert Contains(t[n], x); }
    }
  }

  lemma {:induction false} EnsureHolds(t: Tables, now: Month, done: nat, x: Instant)
    requires Sound(t) && InRange(now) && done <= 3
    ensures Sound(Ensure(t, now, done))
    ensures Held(Ensure(t, now, done), x) <==> Held(t, x) || Index(now) <= Index(x.m) < Index(now) + done
  {
    hide Sound, Held, Create, Index, Later;
    if 0 < done {
      EnsureHolds(t, now, done - 1, x);
      LaterValid(now, done - 1);
      var u := Ensure(t, now, done - 1);
      CreateKeepsSound(u, now, done - 1);
      CreateHolds(u, now, done - 1, x);
    }
  }

  ghost predicate SomeReaches(cs: seq<Call>, x: Instant) { exists i :: 0 <= i < |cs| && Reaches(cs[i], x) }

  lemma SomeReachesSnoc(cs: seq<Call>, c: Call, x: Instant)
    ensures SomeReaches(cs + [c], x) <==> SomeReaches(cs, x) || Reaches(c, x)
  {
    hide Reaches;
    if SomeReaches(cs, x) {
      var i :| 0 <= i < |cs| && Reaches(cs[i], x);
      assert Reaches((cs + [c])[i], x);
    }
    if Reaches(c, x) { assert Reaches((cs + [c])[|cs|], x); }
  }

  lemma {:induction false} RunHolds(cs: seq<Call>, x: Instant)
    requires forall i :: 0 <= i < |cs| ==> CallOk(cs[i])
    ensures Sound(Run(map[], cs))
    ensures Held(Run(map[], cs), x) <==> SomeReaches(cs, x)
  {
    if cs != [] {
      hide Ensure, Held, Sound, Reaches, SomeReaches;
      var older, c := cs[..|cs| - 1], cs[|cs| - 1];
      assert cs == older + [c];
      RunHolds(older, x);
      assert CallOk(c);
      EnsureHolds(Run(map[], older), c.now, c.done, x);
      ReachesMeans(c, x);
      SomeReachesSnoc(older, c, x);
    }
  }

  lemma ReachesMeans(c: Call, x: Instant)
    ensures Reaches(c, x) <==> Index(c.now) <= Index(x.m) < Index(c.now) + c.done
  {}

  /** Tables with different names hold no instant in common. */
  lemma DistinctNamesAreDisjoint(t: Tables, m: string, n: string, x: Instant)
    requires Sound(t)
    ensures m in t && n in t && Contains(t[m], x) && Contains(t[n], x) ==> m == n
  {
    hide Name, Later;
    if m in t && n in t { IndexIsInjective(t[m].lo, t[n].lo); }
  }

  /** Runs at any dates in any order, each possibly cut short: an instant lies in a partition
      if and only if some run reached its month, and then in exactly one. */
  lemma CoveredExactlyOnce(cs: seq<Call>, x: Instant)
    requires forall i :: 0 <= i < |cs| ==> CallOk(cs[i])
    ensures var t := Run(map[], cs);
      && (Held(t, x) <==> exists i :: 0 <= i < |cs| && Reaches(cs[i], x))
      && (forall m, n :: m in t && n in t && Contains(t[m], x) && Contains(t[n], x) ==> m == n)
  {
    RunHolds(cs, x);
    hide Run, Held, Reaches, Sound, Contains;
    assert SomeReaches(cs, x) <==> exists i :: 0 <= i < |cs| && Reaches(cs[i], x);
    var t := Run(map[], cs);
    forall m, n | m in t && n in t && Contains(t[m], x) && Contains(t[n], x) ensures m == n {
      DistinctNamesAreDisjoint(t, m, n, x);
    }
  }

  /** A run that is not cut short covers the month it runs in and the two after it. */
  lemma CompleteRunCovers(now: Month, x: Instant)
    requires InRange(now)
    ensures Held(Ensure(map[], now, 3), x) <==> Index(now) <= Index(x.m) <= Index(now) + 2
  {
    EnsureHolds(map[], now, 3, x);
    assert !Held(map[], x);
  }

  /** Between its first digits and its last the name of a table reads as the year and the month. */
  lemma NameReads(m: Month)
    requires Valid(m)
    ensures var n := Name(m);
      && |n| == 20 && n[..13] == "pixel_events_" && n[17] == '_'
      && (forall i :: 13 <= i < 20 && i != 17 ==> '0' <= n[i] <= '9')
      && m.year == 1000 * (n[13] - '0') as int + 100 * (n[14] - '0') as int
                   + 10 * (n[15] - '0') as int + (n[16] - '0') as int
      && m.month == 10 * (n[18] - '0') as int + (n[19] - '0') as int
  {
    Decimal(m.year);
    assert m.month == 10 * (m.month / 10) + m.month % 10;
  }

  /** The year turns after December; and a table that is there is left alone, whatever range it
      has. */
  lemma DecemberAndJanuary(y: int, t: Tables, now: Month, k: int, n: string)
    requires 1000 <= y < 9999 && Valid(now) && 0 <= k && Valid(Later(now, k)) && n in t
    ensures Later(Month(y, 12), 1) == Month(y + 1, 1) && Later(Month(y, 11), 3) == Month(y + 1, 2)
    ensures n in Create(t, now, k) && Create(t, now, k)[n] == t[n]
  {}
}
