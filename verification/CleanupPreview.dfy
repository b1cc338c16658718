/** The admin cleanup route and its dry run: app/api/routes/admin_backup.py.

    The dry run counts on the listing, which shows at most twenty backups; the live run
    deletes what the queries of the backup service select. */
module CleanupPreview {
  import opened Prelude
  import opened BackupStore
  import P = BackupPolicy
  import R = BackupRuns
  import C = BackupCalls

  const PAGE := 20

  datatype Mode = ExpiredOnly | AutomaticPrevious | OldManual | AllSafe | OtherMode

  /** One entry of `detail`. */
  datatype Field = Absent | WasDeleted(n: nat) | WouldDelete(n: nat) | Hint

  datatype Detail = Detail(expired: Field, automatic: Field, manual: Field)

  predicate InTable(ids: seq<nat>, rows: seq<Row>) { forall m :: 0 <= m < |ids| ==> ids[m] < |rows| }

  predicate Shown(r: Row, h: nat) { r.hosting == h && !r.status.Deleted? }

  function IsShown(h: nat): Row -> bool { (r: Row) => Shown(r, h) }

  /** list_tenant_backups for an admin: the newest PAGE backups not deleted. */
  function Listing(rows: seq<Row>, h: nat): (ids: seq<nat>)
    ensures InTable(ids, rows)
  {
    var all := Newest(rows, IsShown(h));
    assert forall m :: 0 <= m < |all| ==> all[m] in all;
    if |all| <= PAGE then all else all[..PAGE]
  }

  /** `[b for b in backups if p(b)]`. */
  function Filter(ids: seq<nat>, rows: seq<Row>, p: Row -> bool): seq<nat>
    requires InTable(ids, rows)
  {
    if ids == [] then []
    else (if p(rows[ids[0]]) then [ids[0]] else []) + Filter(ids[1..], rows, p)
  }

  function Over(n: int, k: int): nat { if n > k then n - k else 0 }

  function PreviewAutomatic(rows: seq<Row>, h: nat): nat {
    Over(|Filter(Listing(rows, h), rows, IsAutoFree(h))|, 1)
  }

  function PreviewManual(rows: seq<Row>, h: nat, limit: int): nat {
    Over(|Filter(Listing(rows, h), rows, IsManualFree(h))|, limit)
  }

  function ExpiredPart(s: Store, mode: Mode, dry: bool, now: int, f: nat -> Fault): (Store, Field) {
    if !(mode.ExpiredOnly? || mode.AllSafe?) then (s, Absent)
    else if dry then (s, Hint)
    else
      var ids := Elems(ExpiredIds(s.rows, now));
      (Purge(s, ids, f), WasDeleted(|Cleared(ids, f)|))
  }

  function AutomaticPart(s: Store, h: nat, mode: Mode, dry: bool, f: nat -> Fault): (Store, Field) {
    if !(mode.AutomaticPrevious? || mode.AllSafe?) then (s, Absent)
    else if dry then (s, WouldDelete(PreviewAutomatic(s.rows, h)))
    else
      var ids := Elems(PreviousAutos(s.rows, h, None));
      (Purge(s, ids, f), WasDeleted(|Cleared(ids, f)|))
  }

  /** None: get_effective_policy raised, and the route answers 500. */
  function ManualPart(s: Store, h: nat, policy: Option<P.Effective>, mode: Mode, dry: bool, f: nat -> Fault)
    : Option<(Store, Field)>
  {
    if !(mode.OldManual? || mode.AllSafe?) then Some((s, Absent))
    else if policy.None? then None
    else
      var limit := policy.value.p.maxManual;
      if dry then Some((s, WouldDelete(PreviewManual(s.rows, h, limit))))
      else
        var ids := Elems(ExcessManuals(s.rows, h, limit));
        Some((Purge(s, ids, f), WasDeleted(|Cleared(ids, f)|)))
  }

  function Cleanup(s: Store, h: nat, policy: Option<P.Effective>, mode: Mode, dry: bool, now: int, f: nat -> Fault)
    : (Store, Option<Detail>)
  {
    var (s1, expired) := ExpiredPart(s, mode, dry, now, f);
    var (s2, automatic) := AutomaticPart(s1, h, mode, dry, f);
    match ManualPart(s2, h, policy, mode, dry, f)
    case None => (s2, None)
    case Some(m) => (m.0, Some(Detail(expired, automatic, m.1)))
  }

  /** The query of one part raises: the SELECT of a cleanup, or the listing of a dry run. */
  datatype Raise = InExpired | InAutomatic | InManual

  /** The route with its except clause: a raising query answers 500 and keeps what the parts
      before it did.  The TTL part of a dry run asks nothing, nor does a live manual cleanup
      without a positive limit. */
  function Answer(s: Store, h: nat, policy: Option<P.Effective>, mode: Mode, dry: bool, now: int, f: nat -> Fault,
                  raise: Option<Raise>): (Store, Option<Detail>)
  {
    var s1 := ExpiredPart(s, mode, dry, now, f).0;
    var s2 := AutomaticPart(s1, h, mode, dry, f).0;
    if (mode.ExpiredOnly? || mode.AllSafe?) && !dry && raise == Some(InExpired) then (s, None)
    else if (mode.AutomaticPrevious? || mode.AllSafe?) && raise == Some(InAutomatic) then (s1, None)
    else if (mode.OldManual? || mode.AllSafe?) && policy.Some? && (dry || 0 < policy.value.p.maxManual)
      && raise == Some(InManual) then (s2, None)
    else Cleanup(s, h, policy, mode, dry, now, f)
  }

  method FilterLoop(ids: seq<nat>, rows: seq<Row>, p: Row -> bool) returns (kept: seq<nat>)
    requires InTable(ids, rows)
    ensures kept == Filter(ids, rows, p)
  {
    kept := [];
    for k := 0 to |ids|
      invariant Filter(ids, rows, p) == kept + Filter(ids[k..], rows, p)
    {
      assert ids[k..][1..] == ids[k + 1..];
      if p(rows[ids[k]]) { kept := kept + [ids[k]]; }
    }
  }

  method AdminCleanup(b: Backups, h: nat, policy: Option<P.Effective>, mode: Mode, dry: bool, now: int,
                      f: nat -> Fault, raise: Option<Raise>)
    returns (detail: Option<Detail>)
    modifies b
    ensures (b.Snapshot(), detail) == Answer(old(b.Snapshot()), h, policy, mode, dry, now, f, raise)
  {
    var d := Detail(Absent, Absent, Absent);
    if mode.ExpiredOnly? || mode.AllSafe? {
      if !dry {
        if raise == Some(InExpired) { return None; }
        var n := b.CleanupExpiredTtl(now, f);
        d := d.(expired := WasDeleted(n));
      } else {
        d := d.(expired := Hint);
      }
    }
    if mode.AutomaticPrevious? || mode.AllSafe? {
      if raise == Some(InAutomatic) { return None; }
      if !dry {
        var n := b.CleanupAutomaticPrevious(h, None, f);
        d := d.(automatic := WasDeleted(n));
      } else {
        var completed := FilterLoop(Listing(b.rows, h), b.rows, IsAutoFree(h));
        d := d.(automatic := WouldDelete(Over(|completed|, 1)));
      }
    }
    if mode.OldManual? || mode.AllSafe? {
      if policy.None? { return None; }
      var limit := policy.value.p.maxManual;
      if raise == Some(InManual) && (dry || 0 < limit) { return None; }
      if !dry {
        var n := b.CleanupManualExcess(h, limit, f);
        d := d.(manual := WasDeleted(n));
      } else {
        var manual := FilterLoop(Listing(b.rows, h), b.rows, IsManualFree(h));
        d := d.(manual := WouldDelete(Over(|manual|, limit)));
      }
    }
    return Some(d);
  }

  // ------------------------------------------------------------ preview against live run

  /** A dry run changes nothing, whatever raises. */
  lemma DryRunChangesNothing(s: Store, h: nat, policy: Option<P.Effective>, mode: Mode, now: int, f: nat -> Fault,
                             raise: Option<Raise>)
    ensures Answer(s, h, policy, mode, true, now, f, raise).0 == s
  {}

  lemma FilterHead(a: seq<nat>, b: seq<nat>, rows: seq<Row>, p: Row -> bool)
    requires a != [] && a[0] < |rows| && InTable(a + b, rows)
    ensures InTable(a[1..] + b, rows)
    ensures Filter(a + b, rows, p) == (if p(rows[a[0]]) then [a[0]] else []) + Filter(a[1..] + b, rows, p)
  {
    assert (a + b)[1..] == a[1..] + b && a[0] == (a + b)[0];
    assert InTable((a + b)[1..], rows);
  }

  lemma {:induction false} FilterConcat(a: seq<nat>, b: seq<nat>, rows: seq<Row>, p: Row -> bool)
    requires InTable(a, rows) && InTable(b, rows)
    ensures InTable(a + b, rows) && Filter(a + b, rows, p) == Filter(a, rows, p) + Filter(b, rows, p)
    decreases |a|
  {
    if a == [] {
      assert a + b == b;
    } else {
      assert InTable(a + b, rows) && InTable(a[1..], rows);
      FilterStep(a, rows, p);
      FilterHead(a, b, rows, p);
      hide *;
      FilterConcat(a[1..], b, rows, p);
    }
  }

  lemma FilterStep(a: seq<nat>, rows: seq<Row>, p: Row -> bool)
    requires a != [] && InTable(a, rows)
    ensures InTable(a[1..], rows) && a[0] < |rows|
    ensures Filter(a, rows, p) == (if p(rows[a[0]]) then [a[0]] else []) + Filter(a[1..], rows, p)
  {}

  lemma {:induction false} FilterAgree(ids: seq<nat>, rows: seq<Row>, r: Row, p: Row -> bool)
    requires InTable(ids, rows)
    ensures Filter(ids, rows + [r], p) == Filter(ids, rows, p)
  {
    if ids != [] { FilterAgree(ids[1..], rows, r, p); }
  }

  lemma QueryInTable(rows: seq<Row>, q: Row -> bool)
    ensures InTable(Newest(rows, q), rows)
  {
    var ids := Newest(rows, q);
    assert forall m :: 0 <= m < |ids| ==> ids[m] in ids;
  }

  /** Filtering the answer of a query is a query. */
  lemma {:induction false} FilterQuery(rows: seq<Row>, p: Row -> bool, q: Row -> bool)
    requires forall i :: 0 <= i < |rows| && p(rows[i]) ==> q(rows[i])
    ensures InTable(Newest(rows, q), rows) && Filter(Newest(rows, q), rows, p) == Newest(rows, p)
  {
    QueryInTable(rows, q);
    if rows == [] {
      NewestNone(p);
      NewestNone(q);
    } else {
      hide *;
      var older, r := rows[..|rows| - 1], rows[|rows| - 1];
      assert rows == older + [r];
      FilterQuery(older, p, q);
      FilterQueryStep(older, r, p, q);
    }
  }

  lemma FilterQueryStep(rows: seq<Row>, r: Row, p: Row -> bool, q: Row -> bool)
    requires p(r) ==> q(r)
    requires InTable(Newest(rows, q), rows) && Filter(Newest(rows, q), rows, p) == Newest(rows, p)
    ensures InTable(Newest(rows + [r], q), rows + [r])
    ensures Filter(Newest(rows + [r], q), rows + [r], p) == Newest(rows + [r], p)
  {
    hide Newest;
    var ids := Newest(rows, q);
    QueryInTable(rows + [r], q);
    NewestSnoc(rows, r, p);
    NewestSnoc(rows, r, q);
    FilterAgree(ids, rows, r, p);
    if q(r) {
      assert ([|rows|] + ids)[1..] == ids;
    } else {
      assert [] + ids == ids;
    }
  }

  lemma {:induction false} DescendingSize(ids: seq<nat>)
    requires Descending(ids)
    ensures |Elems(ids)| == |ids|
  {
    if ids != [] {
      DescendingSize(ids[1..]);
      assert Elems(ids) == {ids[0]} + Elems(ids[1..]);
    }
  }

  /** Without faults a deletion is counted for each selected backup. */
  lemma LiveCount(ids: seq<nat>, f: nat -> Fault)
    requires Descending(ids) && forall i :: f(i).NoFault?
    ensures |Cleared(Elems(ids), f)| == |ids|
  {
    DescendingSize(ids);
    assert Cleared(Elems(ids), f) == Elems(ids);
  }

  lemma LiveAutomatic(rows: seq<Row>, h: nat)
    ensures |PreviousAutos(rows, h, None)| == Over(|FreeAutos(rows, h)|, 1)
  {}

  lemma LiveManual(rows: seq<Row>, h: nat, limit: int)
    ensures |ExcessManuals(rows, h, limit)| == if limit <= 0 then 0 else Over(|FreeManuals(rows, h)|, limit)
  {}

  /** What the listing shows of a query: all of it on one page, otherwise a part. */
  lemma ListingShows(rows: seq<Row>, h: nat, p: Row -> bool)
    requires forall i :: 0 <= i < |rows| && p(rows[i]) ==> Shown(rows[i], h)
    ensures |Newest(rows, IsShown(h))| <= PAGE ==> Filter(Listing(rows, h), rows, p) == Newest(rows, p)
    ensures |Filter(Listing(rows, h), rows, p)| <= |Newest(rows, p)|
  {
    var all := Newest(rows, IsShown(h));
    FilterQuery(rows, p, IsShown(h));
    hide Newest;
    if |all| > PAGE {
      assert all == all[..PAGE] + all[PAGE..];
      FilterConcat(all[..PAGE], all[PAGE..], rows, p);
    }
  }

  /** The TTL part does not change what the other two see. */
  lemma ExpiredPartApart(s: Store, mode: Mode, dry: bool, now: int, f: nat -> Fault, h: nat)
    requires KeptNeverExpire(s.rows)
    ensures var v := ExpiredPart(s, mode, dry, now, f).0;
      FreeAutos(v.rows, h) == FreeAutos(s.rows, h) && FreeManuals(v.rows, h) == FreeManuals(s.rows, h)
  {
    var ids := Elems(ExpiredIds(s.rows, now));
    PhaseTriggers(s.rows, now, 0);
    PurgeKeepsQuery(s, ids, f, IsAutoFree(h));
    PurgeKeepsQuery(s, ids, f, IsManualFree(h));
  }

  lemma AutomaticPartApart(s: Store, h: nat, mode: Mode, dry: bool, f: nat -> Fault)
    ensures FreeManuals(AutomaticPart(s, h, mode, dry, f).0.rows, h) == FreeManuals(s.rows, h)
  {
    PurgeKeepsQuery(s, Elems(PreviousAutos(s.rows, h, None)), f, IsManualFree(h));
  }

  /** What a fault-free live run deletes. */
  lemma LiveCounts(s: Store, h: nat, policy: P.Effective, mode: Mode, now: int, f: nat -> Fault)
    requires KeptNeverExpire(s.rows) && forall i :: f(i).NoFault?
    ensures var live := Cleanup(s, h, Some(policy), mode, false, now, f).1;
      var limit := policy.p.maxManual;
      && live.Some?
      && live.value.expired == (if mode.ExpiredOnly? || mode.AllSafe?
                                then WasDeleted(|ExpiredIds(s.rows, now)|) else Absent)
      && live.value.automatic == (if mode.AutomaticPrevious? || mode.AllSafe?
                                  then WasDeleted(Over(|FreeAutos(s.rows, h)|, 1)) else Absent)
      && live.value.manual == (if mode.OldManual? || mode.AllSafe?
                               then WasDeleted(if limit <= 0 then 0 else Over(|FreeManuals(s.rows, h)|, limit)) else Absent)
  {
    assert Descending(ExpiredIds(s.rows, now));
    hide Purge, Newest, Cleared, PreviousAutos, ExcessManuals, ExpiredIds, Elems;
    var s1 := ExpiredPart(s, mode, false, now, f).0;
    LiveCount(ExpiredIds(s.rows, now), f);
    ExpiredPartApart(s, mode, false, now, f, h);
    LiveAutomatic(s1.rows, h);
    LiveCount(PreviousAutos(s1.rows, h, None), f);
    var s2 := AutomaticPart(s1, h, mode, false, f).0;
    AutomaticPartApart(s1, h, mode, false, f);
    LiveManual(s2.rows, h, policy.p.maxManual);
    LiveCount(ExcessManuals(s2.rows, h, policy.p.maxManual), f);
  }

  /** The dry run against the fault-free live run on the same store, in every mode.  With
      at most one page of backups the automatic counts agree, and the manual counts agree
      exactly when the limit is positive or nothing exceeds it: at a limit of zero the live
      run deletes nothing.  Beyond one page the automatic preview never exceeds the live
      count, and neither does the manual one for a positive limit. */
  lemma PreviewAgainstLive(s: Store, h: nat, policy: P.Effective, mode: Mode, now: int, f: nat -> Fault)
    requires KeptNeverExpire(s.rows) && forall i :: f(i).NoFault?
    ensures var dry := Cleanup(s, h, Some(policy), mode, true, now, f).1;
      var live := Cleanup(s, h, Some(policy), mode, false, now, f).1;
      var limit, onePage := policy.p.maxManual, |Newest(s.rows, IsShown(h))| <= PAGE;
      && dry.Some? && live.Some?
      && (mode.AutomaticPrevious? || mode.AllSafe? ==>
            && dry.value.automatic.WouldDelete? && live.value.automatic.WasDeleted?
            && dry.value.automatic.n <= live.value.automatic.n
            && (onePage ==> dry.value.automatic.n == live.value.automatic.n))
      && (mode.OldManual? || mode.AllSafe? ==>
            && dry.value.manual.WouldDelete? && live.value.manual.WasDeleted?
            && (0 < limit ==> dry.value.manual.n <= live.value.manual.n)
            && (onePage ==>
                  (dry.value.manual.n == live.value.manual.n <==> 0 < limit || |FreeManuals(s.rows, h)| <= limit)))
  {
    LiveCounts(s, h, policy, mode, now, f);
    ListingShows(s.rows, h, IsAutoFree(h));
    ListingShows(s.rows, h, IsManualFree(h));
    hide Purge, Newest, Cleared, PreviousAutos, ExcessManuals, ExpiredIds, Elems, Listing, Filter;
  }

  // ------------------------------------------------------------------ mode by mode

  /** The listing holds a backup of the hosting that is not deleted if and only if fewer than
      twenty such backups are newer. */
  lemma ListingExactly(rows: seq<Row>, h: nat, i: nat)
    requires i < |rows|
    ensures i in Listing(rows, h) <==>
      rows[i].hosting == h && rows[i].status != Deleted && |Newest(rows[i + 1..], IsShown(h))| < 20
  {
    var all := Newest(rows, IsShown(h));
    if Shown(rows[i], h) {
      NewestRank(rows, IsShown(h), i);
      var m := |Newest(rows[i + 1..], IsShown(h))|;
      hide Newest;
      assert all[m] == i;
      if |all| > 20 {
        if m < 20 { assert all[..20][m] == i; }
        if i in all[..20] {
          var n :| 0 <= n < 20 && all[..20][n] == i;
          assert all[n] == i;
        }
      }
    } else {
      assert i !in all;
    }
  }

  /** Each part of the route runs in its own mode and in `all_safe`, and in no other; a dry run
      answers with a hint or a number of candidates, a live one with a number deleted. */
  lemma PartsExactly(s: Store, h: nat, policy: P.Effective, mode: Mode, dry: bool, now: int, f: nat -> Fault)
    ensures var d := Cleanup(s, h, Some(policy), mode, dry, now, f).1;
      && d.Some?
      && (d.value.expired == Absent <==> mode !in {ExpiredOnly, AllSafe})
      && (d.value.automatic == Absent <==> mode !in {AutomaticPrevious, AllSafe})
      && (d.value.manual == Absent <==> mode !in {OldManual, AllSafe})
      && (mode in {ExpiredOnly, AllSafe} ==> (d.value.expired.Hint? <==> dry) && (d.value.expired.WasDeleted? <==> !dry))
      && (mode in {AutomaticPrevious, AllSafe} ==>
            (d.value.automatic.WouldDelete? <==> dry) && (d.value.automatic.WasDeleted? <==> !dry))
      && (mode in {OldManual, AllSafe} ==>
            (d.value.manual.WouldDelete? <==> dry) && (d.value.manual.WasDeleted? <==> !dry))
      && (mode == OtherMode ==> Cleanup(s, h, Some(policy), mode, dry, now, f).0 == s)
  {
    hide Purge, Newest, Cleared, PreviousAutos, ExcessManuals, ExpiredIds, Elems, Listing, Filter;
  }

  /** What a live run without faults leaves: in the modes that ask for it no backup whose expiry
      has passed, the newest unprotected automatic backup alone, and the newest manual ones up to
      a positive limit. */
  lemma LiveRunEstablishes(s: Store, h: nat, policy: P.Effective, mode: Mode, now: int, f: nat -> Fault)
    requires KeptNeverExpire(s.rows) && forall i :: f(i).NoFault?
    ensures var v := Cleanup(s, h, Some(policy), mode, false, now, f).0;
      var autos, manuals, limit := FreeAutos(s.rows, h), FreeManuals(s.rows, h), policy.p.maxManual;
      && FreeAutos(v.rows, h) ==
           (if mode in {AutomaticPrevious, AllSafe} && 1 < |autos| then autos[..1] else autos)
      && FreeManuals(v.rows, h) ==
           (if mode in {OldManual, AllSafe} && 0 < limit < |manuals| then manuals[..limit] else manuals)
      && (mode in {ExpiredOnly, AllSafe} ==> ExpiredIds(v.rows, now) == [])
  {
    hide Purge, Newest, PreviousAutos, ExcessManuals, ExpiredIds, Elems, Cleared;
    var s1 := ExpiredPart(s, mode, false, now, f).0;
    ExpiredPartApart(s, mode, false, now, f, h);
    var s2 := AutomaticPart(s1, h, mode, false, f).0;
    AutomaticPartApart(s1, h, mode, false, f);
    if mode in {AutomaticPrevious, AllSafe} { C.CleanupKeepsNewestAutomatic(s1, h, f); }
    var limit := policy.p.maxManual;
    if 0 < limit { R.KeepsPrefix(s2, h, limit, f); }
    ManualPartApart(s2, h, limit, f);
    if mode in {ExpiredOnly, AllSafe} {
      ExpiredGone(s, now, f);
      NoneExpiredAgain(s1, Elems(PreviousAutos(s1.rows, h, None)), f, now);
      NoneExpiredAgain(s2, Elems(ExcessManuals(s2.rows, h, limit)), f, now);
    }
  }

  lemma ManualPartApart(s: Store, h: nat, limit: int, f: nat -> Fault)
    ensures var v := Purge(s, Elems(ExcessManuals(s.rows, h, limit)), f);
      FreeAutos(v.rows, h) == FreeAutos(s.rows, h) && (limit <= 0 ==> v == s)
  {
    PurgeKeepsQuery(s, Elems(ExcessManuals(s.rows, h, limit)), f, IsAutoFree(h));
    PurgeNone(s, f);
  }

  lemma ExpiredGone(s: Store, now: int, f: nat -> Fault)
    requires forall i :: f(i).NoFault?
    ensures ExpiredIds(Purge(s, Elems(ExpiredIds(s.rows, now)), f).rows, now) == []
  {
    var v := Purge(s, Elems(ExpiredIds(s.rows, now)), f);
    R.NoneSelected(v.rows, (r: Row) => Expired(r, now));
  }

  /** Deleting more lets nothing expire again. */
  lemma NoneExpiredAgain(s: Store, d: set<nat>, f: nat -> Fault, now: int)
    requires ExpiredIds(s.rows, now) == []
    ensures ExpiredIds(Purge(s, d, f).rows, now) == []
  {
    var v := Purge(s, d, f);
    forall i | 0 <= i < |v.rows| ensures !Expired(v.rows[i], now) { assert i !in ExpiredIds(s.rows, now); }
    R.NoneSelected(v.rows, (r: Row) => Expired(r, now));
  }

  /** When the route answers 500 and what it has done by then: a query that raises, or the policy
      that is not there, in the first part that asks for it; the parts before stay done. */
  lemma RaisedExactly(s: Store, h: nat, policy: Option<P.Effective>, mode: Mode, dry: bool, now: int, f: nat -> Fault,
                      raise: Option<Raise>)
    ensures var (v, d) := Answer(s, h, policy, mode, dry, now, f, raise);
      var ttl, auto := mode in {ExpiredOnly, AllSafe}, mode in {AutomaticPrevious, AllSafe};
      var manual := mode in {OldManual, AllSafe};
      var first := ttl && !dry && raise == Some(InExpired);
      var second := auto && raise == Some(InAutomatic);
      var third := manual && (policy.None? || ((dry || policy.value.p.maxManual > 0) && raise == Some(InManual)));
      && (d.None? <==> first || second || third)
      && (first ==> v == s)
      && (second && !first ==> v == ExpiredPart(s, mode, dry, now, f).0)
      && (third && !first && !second ==> v == AutomaticPart(ExpiredPart(s, mode, dry, now, f).0, h, mode, dry, f).0)
      && (d.Some? ==> (v, d) == Cleanup(s, h, policy, mode, dry, now, f))
  {
    hide Purge, Newest, Cleared, PreviousAutos, ExcessManuals, ExpiredIds, Elems, Listing, Filter, PreviewAutomatic,
      PreviewManual;
  }
}
