/** Offset pagination over a result set that shrinks under it: the cleanup of expired
    hostings in app/services/expiration_job.py.

    Hosting ids are row numbers and the query returns rows in that order. */
module CleanupPass {
  import opened Lifecycle

  const BATCH := 50

  /** Processing one row: it raises before the row is marked deleted, or only after, in the
      event log; then it is gone but not counted. */
  datatype RowFault = Fine | BeforeMark | AfterMark

  /** SELECT ... WHERE status = 'expired', in table order. */
  function ExpiredRows(st: seq<Status>): (ids: seq<nat>)
    ensures forall k :: 0 <= k < |ids| ==> ids[k] < |st| && st[ids[k]].Expired?
    ensures forall k, m :: 0 <= k < m < |ids| ==> ids[k] < ids[m]
  {
    if st == [] then []
    else
      var n := |st| - 1;
      ExpiredRows(st[..n]) + if st[n].Expired? then [n] else []
  }

  /** The k-th row of the query has k expired rows before it. */
  lemma {:induction false} ExpiredRank(st: seq<Status>, k: nat)
    requires k < |ExpiredRows(st)|
    ensures ExpiredRows(st)[k] < |st| && |ExpiredRows(st[..ExpiredRows(st)[k]])| == k
    decreases |st|
  {
    var n := |st| - 1;
    if k < |ExpiredRows(st[..n])| {
      ExpiredRank(st[..n], k);
      var i := ExpiredRows(st)[k];
      assert i == ExpiredRows(st[..n])[k];
      assert st[..n][..i] == st[..i];
    }
  }

  function Page(q: seq<nat>, offset: nat): (r: seq<nat>)
    ensures |r| <= BATCH && (r == [] <==> |q| <= offset)
    ensures offset < |q| ==> offset + |r| <= |q| && r == q[offset..offset + |r|]
    ensures offset + BATCH < |q| ==> |r| == BATCH
    ensures offset < |q| <= offset + BATCH ==> offset + |r| == |q|
  {
    if |q| <= offset then [] else if |q| <= offset + BATCH then q[offset..] else q[offset..offset + BATCH]
  }

  /** Rows that are still there after they were processed. */
  function Stay(ids: seq<nat>, f: nat -> RowFault): (r: seq<nat>)
    ensures |r| <= |ids|
  {
    if ids == [] then [] else (if f(ids[0]).BeforeMark? then [ids[0]] else []) + Stay(ids[1..], f)
  }

  /** What the rows of the query are after one page was processed. */
  function AfterPage(q: seq<nat>, offset: nat, f: nat -> RowFault): seq<nat>
    requires offset < |q|
  {
    q[..offset] + Stay(Page(q, offset), f) + q[offset + |Page(q, offset)|..]
  }

  /** The rows one pass processes, in order, from some offset on. */
  function Processed(q: seq<nat>, offset: nat, f: nat -> RowFault): seq<nat>
    decreases |q| - offset
  {
    if |q| <= offset then []
    else Page(q, offset) + Processed(AfterPage(q, offset, f), offset + BATCH, f)
  }

  /** The rows left when the pass ends. */
  function Left(q: seq<nat>, offset: nat, f: nat -> RowFault): seq<nat>
    decreases |q| - offset
  {
    if |q| <= offset then q else Left(AfterPage(q, offset, f), offset + BATCH, f)
  }

  function Cleaned(ids: seq<nat>, f: nat -> RowFault): nat {
    if ids == [] then 0 else Cleaned(ids[..|ids| - 1], f) + if f(ids[|ids| - 1]).Fine? then 1 else 0
  }

  function MarkDeleted(st: seq<Status>, ids: seq<nat>, f: nat -> RowFault): seq<Status> {
    seq(|st|, i requires 0 <= i < |st| => if i in ids && !f(i).BeforeMark? then Deleted else st[i])
  }

  // ------------------------------------------------------------ the query and deletion

  /** The rows of ids that are not deleted by processing `gone`. */
  function Keep(ids: seq<nat>, gone: seq<nat>, f: nat -> RowFault): seq<nat> {
    if ids == [] then []
    else Keep(ids[..|ids| - 1], gone, f)
         + if ids[|ids| - 1] in gone && !f(ids[|ids| - 1]).BeforeMark? then [] else [ids[|ids| - 1]]
  }

  lemma KeepSnoc(ids: seq<nat>, i: nat, gone: seq<nat>, f: nat -> RowFault)
    ensures Keep(ids + [i], gone, f) == Keep(ids, gone, f) + if i in gone && !f(i).BeforeMark? then [] else [i]
  {
    assert (ids + [i])[..|ids|] == ids;
  }

  lemma {:induction false} KeepConcat(a: seq<nat>, b: seq<nat>, gone: seq<nat>, f: nat -> RowFault)
    ensures Keep(a + b, gone, f) == Keep(a, gone, f) + Keep(b, gone, f)
    decreases |b|
  {
    if b == [] {
      assert a + b == a;
    } else {
      var n := |b| - 1;
      KeepConcat(a, b[..n], gone, f);
      KeepSnoc(a + b[..n], b[n], gone, f);
      assert a + b[..n] + [b[n]] == a + b;
    }
  }

  lemma {:induction false} KeepAll(ids: seq<nat>, gone: seq<nat>, f: nat -> RowFault)
    requires forall k :: 0 <= k < |ids| ==> ids[k] !in gone
    ensures Keep(ids, gone, f) == ids
  {
    if ids != [] { KeepAll(ids[..|ids| - 1], gone, f); }
  }

  lemma {:induction false} StaySnoc(ids: seq<nat>, i: nat, f: nat -> RowFault)
    ensures Stay(ids + [i], f) == Stay(ids, f) + if f(i).BeforeMark? then [i] else []
    decreases |ids|
  {
    if ids != [] {
      assert (ids + [i])[1..] == ids[1..] + [i];
      StaySnoc(ids[1..], i, f);
    } else {
      assert [i][1..] == [];
    }
  }

  lemma {:induction false} KeepStay(ids: seq<nat>, gone: seq<nat>, f: nat -> RowFault)
    requires forall k :: 0 <= k < |ids| ==> ids[k] in gone
    ensures Keep(ids, gone, f) == Stay(ids, f)
  {
    if ids != [] {
      var n := |ids| - 1;
      KeepStay(ids[..n], gone, f);
      StaySnoc(ids[..n], ids[n], f);
      assert ids[..n] + [ids[n]] == ids;
    }
  }

  /** Marking rows deleted takes them out of the query and moves nothing else. */
  lemma {:induction false} QueryAfterMark(st: seq<Status>, gone: seq<nat>, f: nat -> RowFault)
    ensures ExpiredRows(MarkDeleted(st, gone, f)) == Keep(ExpiredRows(st), gone, f)
  {
    var v := MarkDeleted(st, gone, f);
    if st != [] {
      var n := |st| - 1;
      QueryAfterMark(st[..n], gone, f);
      assert v[..n] == MarkDeleted(st[..n], gone, f);
      var ids := ExpiredRows(st[..n]);
      if st[n].Expired? {
        assert ExpiredRows(st) == ids + [n];
        KeepSnoc(ids, n, gone, f);
      } else {
        assert ExpiredRows(st) == ids;
      }
    }
  }

  lemma KeepParts(pre: seq<nat>, page: seq<nat>, post: seq<nat>, f: nat -> RowFault)
    requires (forall k :: 0 <= k < |pre| ==> pre[k] !in page) && (forall k :: 0 <= k < |post| ==> post[k] !in page)
    ensures Keep(pre + page + post, page, f) == pre + Stay(page, f) + post
  {
    hide *;
    KeepAll(pre, page, f);
    KeepAll(post, page, f);
    KeepStay(page, page, f);
    KeepConcat(pre, page, page, f);
    KeepConcat(pre + page, post, page, f);
  }

  lemma Ascending(st: seq<Status>, i: nat, j: nat)
    requires i < j <= |ExpiredRows(st)|
    ensures var q := ExpiredRows(st);
      && (forall k :: 0 <= k < i ==> q[..i][k] !in q[i..j])
      && (forall k :: 0 <= k < |q| - j ==> q[j..][k] !in q[i..j])
  {}

  lemma Cut(q: seq<nat>, i: nat, j: nat)
    requires i <= j <= |q|
    ensures q[..i] + q[i..j] + q[j..] == q
  {}

  /** After a page has been processed the query returns AfterPage. */
  lemma PageLeaves(st: seq<Status>, offset: nat, f: nat -> RowFault)
    requires offset < |ExpiredRows(st)|
    ensures var q := ExpiredRows(st);
      ExpiredRows(MarkDeleted(st, Page(q, offset), f)) == AfterPage(q, offset, f)
  {
    hide ExpiredRows, Keep, Stay, MarkDeleted, Page;
    var q := ExpiredRows(st);
    var page := Page(q, offset);
    QueryAfterMark(st, page, f);
    var j := offset + |page|;
    Ascending(st, offset, j);
    Cut(q, offset, j);
    KeepParts(q[..offset], page, q[j..], f);
  }

  lemma MarkMore(st: seq<Status>, a: seq<nat>, b: seq<nat>, f: nat -> RowFault)
    ensures MarkDeleted(MarkDeleted(st, a, f), b, f) == MarkDeleted(st, a + b, f)
  {}

  /** One round of the pass. */
  lemma PageRound(st0: seq<Status>, seen: seq<nat>, offset: nat, f: nat -> RowFault)
    requires offset < |ExpiredRows(MarkDeleted(st0, seen, f))|
    ensures var st := MarkDeleted(st0, seen, f);
      var q := ExpiredRows(st);
      var page := Page(q, offset);
      var u := MarkDeleted(st, page, f);
      && u == MarkDeleted(st0, seen + page, f)
      && |ExpiredRows(u)| <= |q|
      && seen + Processed(q, offset, f) == seen + page + Processed(ExpiredRows(u), offset + BATCH, f)
      && Left(q, offset, f) == Left(ExpiredRows(u), offset + BATCH, f)
      && Cleaned(seen + page, f) == Cleaned(seen, f) + Cleaned(page, f)
      && forall k :: 0 <= k < |page| ==> page[k] < |st|
  {
    var st := MarkDeleted(st0, seen, f);
    var q := ExpiredRows(st);
    var page := Page(q, offset);
    hide *;
    InTable(st, offset);
    PageLeaves(st, offset, f);
    AfterPageShrinks(q, offset, f);
    MarkMore(st0, seen, page, f);
    CleanedConcat(seen, page, f);
    OneRound(q, offset, f);
    Associative(seen, page, Processed(AfterPage(q, offset, f), offset + BATCH, f));
  }

  lemma Associative(a: seq<nat>, b: seq<nat>, c: seq<nat>)
    ensures a + (b + c) == a + b + c
  {}

  lemma OneRound(q: seq<nat>, offset: nat, f: nat -> RowFault)
    requires offset < |q|
    ensures Processed(q, offset, f) == Page(q, offset) + Processed(AfterPage(q, offset, f), offset + BATCH, f)
    ensures Left(q, offset, f) == Left(AfterPage(q, offset, f), offset + BATCH, f)
  {}

  lemma {:induction false} CleanedConcat(a: seq<nat>, b: seq<nat>, f: nat -> RowFault)
    ensures Cleaned(a + b, f) == Cleaned(a, f) + Cleaned(b, f)
    decreases |b|
  {
    if b == [] {
      assert a + b == a;
    } else {
      var n := |b| - 1;
      CleanedConcat(a, b[..n], f);
      assert (a + b)[..|a + b| - 1] == a + b[..n];
    }
  }

  class HostingTable {
    var status: seq<Status>

    constructor (status: seq<Status>)
      ensures this.status == status
    {
      this.status := status;
    }

    /** get_expired_hostings: the expired hostings that stand behind exactly `offset`,
        `offset` + 1, ... other expired ones, at most a batch of them; short only at the end. */
    method GetExpiredHostings(offset: nat) returns (ids: seq<nat>)
      ensures |ids| <= BATCH && (ids == [] <==> |ExpiredRows(status)| <= offset)
      ensures |ids| < BATCH && ids != [] ==> offset + |ids| == |ExpiredRows(status)|
      ensures forall k :: 0 <= k < |ids| ==>
        ids[k] < |status| && status[ids[k]].Expired? && |ExpiredRows(status[..ids[k]])| == offset + k
      ensures ids == Page(ExpiredRows(status), offset)
    {
      var q := ExpiredRows(status);
      ids := Page(q, offset);
      forall k | 0 <= k < |ids|
        ensures ids[k] < |status| && status[ids[k]].Expired? && |ExpiredRows(status[..ids[k]])| == offset + k
      {
        assert ids[k] == q[offset + k];
        ExpiredRank(status, offset + k);
      }
    }

    /** The for loop over one page. */
    method CleanPage(ids: seq<nat>, f: nat -> RowFault) returns (cleaned: nat)
      requires forall k :: 0 <= k < |ids| ==> ids[k] < |status|
      modifies this
      ensures status == MarkDeleted(old(status), ids, f)
      ensures |status| == |old(status)|
      ensures forall i :: 0 <= i < |status| ==>
        status[i] == if i in ids && f(i) != BeforeMark then Deleted else old(status)[i]
      ensures cleaned == Cleaned(ids, f)
    {
      cleaned := 0;
      var k := 0;
      while k < |ids|
        invariant k <= |ids| && |status| == |old(status)|
        invariant status == MarkDeleted(old(status), ids[..k], f)
        invariant cleaned == Cleaned(ids[..k], f)
      {
        var id := ids[k];
        if !f(id).BeforeMark? {
          status := status[id := Deleted];
          if f(id).Fine? { cleaned := cleaned + 1; }
        }
        assert ids[..k + 1][..k] == ids[..k];
        assert ids[..k + 1] == ids[..k] + [id];
        k := k + 1;
      }
      assert ids[..k] == ids;
    }

    /** One pass; it terminates whatever fails. */
    method CleanupExpiredHostings(f: nat -> RowFault) returns (cleaned: nat)
      modifies this
      ensures status == MarkDeleted(old(status), Processed(ExpiredRows(old(status)), 0, f), f)
      ensures ExpiredRows(status) == Left(ExpiredRows(old(status)), 0, f)
      ensures cleaned == Cleaned(Processed(ExpiredRows(old(status)), 0, f), f)
      ensures |status| == |old(status)|
      ensures forall i :: 0 <= i < |status| ==>
        status[i] == if i in Processed(ExpiredRows(old(status)), 0, f) && f(i) != BeforeMark then Deleted
                     else old(status)[i]
    {
      hide ExpiredRows, MarkDeleted, Cleaned, AfterPage, Processed, Left;
      ghost var q0 := ExpiredRows(status);
      ghost var seen: seq<nat> := [];
      cleaned := 0;
      var offset: nat := 0;
      NothingMarked(status, f);
      var hostings := GetExpiredHostings(offset);
      while hostings != []
        invariant hostings == Page(ExpiredRows(status), offset)
        invariant Processed(q0, 0, f) == seen + Processed(ExpiredRows(status), offset, f)
        invariant Left(q0, 0, f) == Left(ExpiredRows(status), offset, f)
        invariant status == MarkDeleted(old(status), seen, f)
        invariant cleaned == Cleaned(seen, f)
        decreases |ExpiredRows(status)| - offset
      {
        PageRound(old(status), seen, offset, f);
        var n := CleanPage(hostings, f);
        seen := seen + hostings;
        cleaned := cleaned + n;
        offset := offset + BATCH;
        hostings := GetExpiredHostings(offset);
      }
      PassEnds(ExpiredRows(status), offset, f);
      assert seen + [] == seen;
      MarkMeans(old(status), seen, f);
    }
  }

  lemma MarkMeans(st: seq<Status>, ids: seq<nat>, f: nat -> RowFault)
    ensures var v := MarkDeleted(st, ids, f);
      |v| == |st| && forall i :: 0 <= i < |v| ==> v[i] == if i in ids && f(i) != BeforeMark then Deleted else st[i]
  {}

  lemma PassEnds(q: seq<nat>, offset: nat, f: nat -> RowFault)
    requires Page(q, offset) == []
    ensures Processed(q, offset, f) == [] && Left(q, offset, f) == q
  {}

  lemma NothingMarked(st: seq<Status>, f: nat -> RowFault)
    ensures MarkDeleted(st, [], f) == st && Cleaned([], f) == 0
  {}

  lemma AfterPageShrinks(q: seq<nat>, offset: nat, f: nat -> RowFault)
    requires offset < |q|
    ensures |AfterPage(q, offset, f)| <= |q|
  {}

  lemma InTable(st: seq<Status>, offset: nat)
    ensures forall k :: 0 <= k < |Page(ExpiredRows(st), offset)| ==> Page(ExpiredRows(st), offset)[k] < |st|
  {}

  // ------------------------------------------------------------------ what a pass reaches

  predicate Distinct(ids: seq<nat>) { forall k, m :: 0 <= k < m < |ids| ==> ids[k] != ids[m] }

  predicate From(i: nat, q: seq<nat>, k: nat) { exists m :: k <= m < |q| && q[m] == i }

  /** Whatever fails, no row is processed twice in a pass. */
  lemma {:induction false} NeverTwice(q: seq<nat>, offset: nat, f: nat -> RowFault)
    requires Distinct(q)
    ensures Distinct(Processed(q, offset, f))
    ensures forall k :: 0 <= k < |Processed(q, offset, f)| ==> From(Processed(q, offset, f)[k], q, offset)
    decreases |q| - offset
  {
    if offset < |q| {
      var page := Page(q, offset);
      var v := AfterPage(q, offset, f);
      var rest := Processed(v, offset + BATCH, f);
      AfterPageShrinks(q, offset, f);
      DistinctAfterPage(q, offset, f);
      NeverTwice(v, offset + BATCH, f);
      forall k | 0 <= k < |rest| ensures From(rest[k], q, offset + |page|) {
        Behind(q, offset, f, rest[k]);
      }
      hide Processed, AfterPage, Page, Stay;
      forall k, m | 0 <= k < |page| && 0 <= m < |rest| ensures page[k] != rest[m] {
        assert From(rest[m], q, offset + |page|) && page[k] == q[offset + k];
      }
      forall k | 0 <= k < |page| ensures From(page[k], q, offset) { assert q[offset + k] == page[k]; }
      Together(page, rest);
      assert Processed(q, offset, f) == page + rest by { OneRound(q, offset, f); }
    }
  }

  lemma Together(a: seq<nat>, b: seq<nat>)
    requires Distinct(a) && Distinct(b) && forall k, m :: 0 <= k < |a| && 0 <= m < |b| ==> a[k] != b[m]
    ensures Distinct(a + b)
  {}

  /** A row behind the next offset comes from behind this page: as many rows are passed
      over as the page deleted. */
  lemma Behind(q: seq<nat>, offset: nat, f: nat -> RowFault, i: nat)
    requires offset < |q| && From(i, AfterPage(q, offset, f), offset + BATCH)
    ensures From(i, q, offset + |Page(q, offset)|)
  {
    hide Page;
    var page := Page(q, offset);
    var kept := Stay(page, f);
    var v := AfterPage(q, offset, f);
    var m :| offset + BATCH <= m < |v| && v[m] == i;
    assert v[m] == q[m + |page| - |kept|];
  }

  lemma {:induction false} StaySubset(ids: seq<nat>, f: nat -> RowFault)
    ensures forall i :: i in Stay(ids, f) ==> i in ids
    ensures Distinct(ids) ==> Distinct(Stay(ids, f))
  {
    if ids != [] {
      StaySubset(ids[1..], f);
      if Distinct(ids) {
        assert ids[0] !in ids[1..];
        assert ids[0] !in Stay(ids[1..], f);
      }
    }
  }

  lemma DistinctAfterPage(q: seq<nat>, offset: nat, f: nat -> RowFault)
    requires offset < |q| && Distinct(q)
    ensures Distinct(AfterPage(q, offset, f))
  {
    hide Stay, Page;
    var page := Page(q, offset);
    var kept := Stay(page, f);
    StaySubset(page, f);
    var pre, post := q[..offset], q[offset + |page|..];
    forall k, m | 0 <= k < |kept| && 0 <= m < |q| && !(offset <= m < offset + |page|) ensures kept[k] != q[m] {
      assert kept[k] in page;
      var n :| 0 <= n < |page| && page[n] == kept[k];
      assert q[offset + n] == kept[k];
    }
    Together(pre, kept);
    Together(pre + kept, post);
  }

  /** A pass from the start: only expired rows, each at most once, whatever fails. */
  lemma PassIsSafe(st: seq<Status>, f: nat -> RowFault)
    ensures Distinct(Processed(ExpiredRows(st), 0, f))
    ensures forall i :: i in Processed(ExpiredRows(st), 0, f) ==> i < |st| && st[i].Expired?
  {
    var q := ExpiredRows(st);
    var done := Processed(q, 0, f);
    NeverTwice(q, 0, f);
    forall i | i in done ensures i < |st| && st[i].Expired? {
      var k :| 0 <= k < |done| && done[k] == i;
      assert From(done[k], q, 0);
    }
  }

  // ---------------------------------------------------------------- when nothing fails

  ghost predicate AllFine(f: nat -> RowFault) { forall i :: f(i).Fine? }

  lemma {:induction false} NoneStay(ids: seq<nat>, f: nat -> RowFault)
    requires AllFine(f)
    ensures Stay(ids, f) == [] && Cleaned(ids, f) == |ids|
  {
    if ids != [] {
      NoneStay(ids[1..], f);
      NoneStay(ids[..|ids| - 1], f);
    }
  }

  function Min(a: nat, b: nat): nat { if a < b then a else b }

  /** How many of n rows one good pass deletes: of each hundred the first fifty. */
  function Quota(n: nat): nat { BATCH * (n / (2 * BATCH)) + Min(BATCH, n % (2 * BATCH)) }

  lemma QuotaStep(n: nat)
    ensures n <= 2 * BATCH ==> Quota(n) == Min(BATCH, n)
    ensures 2 * BATCH <= n ==> Quota(n) == BATCH + Quota(n - 2 * BATCH)
  {
    var m := n - 100;
    assert n == 100 * (n / 100) + n % 100 && (m >= 0 ==> m / 100 == n / 100 - 1);
  }

  lemma {:induction false} CountProcessed(q: seq<nat>, offset: nat, f: nat -> RowFault)
    requires AllFine(f) && offset <= |q|
    ensures |Processed(q, offset, f)| == Quota(|q| - offset)
    ensures |Left(q, offset, f)| == |q| - Quota(|q| - offset)
    decreases |q| - offset
  {
    QuotaStep(|q| - offset);
    if offset < |q| {
      hide Quota, Page, Stay;
      NoneStay(Page(q, offset), f);
      var v := AfterPage(q, offset, f);
      assert |v| == |q| - |Page(q, offset)|;
      if offset + BATCH <= |v| {
        CountProcessed(v, offset + BATCH, f);
      }
    }
  }

  lemma QuotaBounds(n: nat)
    ensures Quota(n) <= n <= 2 * Quota(n)
    ensures Quota(n) == n <==> n <= BATCH
  {}

  /** One pass without failures over n expired hostings deletes exactly Quota(n) of them: at
      least half, and all of them exactly when they fit in one batch. */
  lemma OneGoodPass(st: seq<Status>, f: nat -> RowFault)
    requires AllFine(f)
    ensures var n := |ExpiredRows(st)|;
      && Cleaned(Processed(ExpiredRows(st), 0, f), f) == Quota(n)
      && |Left(ExpiredRows(st), 0, f)| == n - Quota(n)
      && n <= 2 * Quota(n)
      && (Left(ExpiredRows(st), 0, f) == [] <==> n <= BATCH)
  {
    hide ExpiredRows, Processed, Left, Quota, Cleaned;
    CountProcessed(ExpiredRows(st), 0, f);
    NoneStay(Processed(ExpiredRows(st), 0, f), f);
    QuotaBounds(|ExpiredRows(st)|);
  }

  /** One pass after the other on the table. */
  function OnePass(st: seq<Status>, f: nat -> RowFault): seq<Status> {
    MarkDeleted(st, Processed(ExpiredRows(st), 0, f), f)
  }

  function Passes(st: seq<Status>, p: nat, f: nat -> RowFault): seq<Status>
    decreases p
  {
    if p == 0 then st else Passes(OnePass(st, f), p - 1, f)
  }

  /** What the method's loop does, on values. */
  lemma {:induction false} PassLeaves(st: seq<Status>, offset: nat, f: nat -> RowFault)
    ensures ExpiredRows(MarkDeleted(st, Processed(ExpiredRows(st), offset, f), f)) == Left(ExpiredRows(st), offset, f)
    decreases |ExpiredRows(st)| - offset
  {
    var q := ExpiredRows(st);
    hide ExpiredRows, MarkDeleted, AfterPage;
    if offset < |q| {
      var u := MarkDeleted(st, Page(q, offset), f);
      PageLeaves(st, offset, f);
      AfterPageShrinks(q, offset, f);
      PassLeaves(u, offset + BATCH, f);
      MarkMore(st, Page(q, offset), Processed(ExpiredRows(u), offset + BATCH, f), f);
    } else {
      NothingMarked(st, f);
    }
  }

  function Pow2(p: nat): nat { if p == 0 then 1 else 2 * Pow2(p - 1) }

  /** What a pass does to a row, whatever fails: a processed row that does not raise before it
      is marked goes from expired to deleted, and every other row stays as it was. */
  lemma PassExactly(st: seq<Status>, f: nat -> RowFault, i: nat)
    requires i < |st|
    ensures var v := OnePass(st, f);
      var done := i in Processed(ExpiredRows(st), 0, f) && f(i) != BeforeMark;
      && |v| == |st|
      && (done ==> st[i] == Expired && v[i] == Deleted && Move(st[i], v[i]))
      && (!done ==> v[i] == st[i])
  {
    hide Processed;
    PassIsSafe(st, f);
  }

  /** The number a pass returns counts the rows it marked and then raised no more. */
  lemma PassCounts(st: seq<Status>, f: nat -> RowFault)
    ensures var ids := Processed(ExpiredRows(st), 0, f);
      Cleaned(ids, f) == |set i: nat | i in ids && f(i) == Fine|
  {
    hide Processed, Cleaned;
    PassIsSafe(st, f);
    CleanedSize(Processed(ExpiredRows(st), 0, f), f);
  }

  lemma {:induction false} CleanedSize(ids: seq<nat>, f: nat -> RowFault)
    requires Distinct(ids)
    ensures Cleaned(ids, f) == |set i: nat | i in ids && f(i) == Fine|
  {
    if ids == [] {
      assert (set i: nat | i in ids && f(i) == Fine) == {};
    } else {
      var n := |ids| - 1;
      CleanedSize(ids[..n], f);
      assert ids == ids[..n] + [ids[n]];
      FineSnoc(ids[..n], ids[n], f);
    }
  }

  lemma FineSnoc(ids: seq<nat>, x: nat, f: nat -> RowFault)
    requires x !in ids
    ensures |set i: nat | i in ids + [x] && f(i) == Fine|
      == |set i: nat | i in ids && f(i) == Fine| + if f(x) == Fine then 1 else 0
  {
    var a, b := set i: nat | i in ids && f(i) == Fine, set i: nat | i in ids + [x] && f(i) == Fine;
    assert b == if f(x) == Fine then a + {x} else a;
  }

  /** Without failures at most fifty expired hostings are all deleted in one pass, and nobody
      else is; of more, some are left. */
  lemma FiftyAtOnce(st: seq<Status>, f: nat -> RowFault, i: nat)
    requires AllFine(f) && i < |st|
    ensures |OnePass(st, f)| == |st|
    ensures |ExpiredRows(st)| <= 50 ==> OnePass(st, f)[i] == if st[i] == Expired then Deleted else st[i]
    ensures |ExpiredRows(st)| > 50 ==> exists j :: 0 <= j < |OnePass(st, f)| && OnePass(st, f)[j] == Expired
  {
    hide Processed, MarkDeleted, Left, Cleaned;
    PassLeaves(st, 0, f);
    OneGoodPass(st, f);
    PassExactly(st, f, i);
    var v := OnePass(st, f);
    if |ExpiredRows(st)| > 50 {
      assert v[ExpiredRows(v)[0]].Expired?;
    } else if v[i].Expired? {
      NoneListed(v, i);
    }
  }

  lemma {:induction false} NoneListed(st: seq<Status>, i: nat)
    requires i < |st| && st[i].Expired?
    ensures ExpiredRows(st) != []
  {
    if i < |st| - 1 { NoneListed(st[..|st| - 1], i); }
  }

  /** Good passes halve the backlog: p of them empty any backlog below 2^p. */
  lemma {:induction false} LogarithmicPasses(st: seq<Status>, p: nat, f: nat -> RowFault)
    requires AllFine(f) && |ExpiredRows(st)| < Pow2(p)
    ensures ExpiredRows(Passes(st, p, f)) == []
    decreases p
  {
    hide ExpiredRows, MarkDeleted, Processed, Left, Quota;
    if p > 0 {
      PassLeaves(st, 0, f);
      OneGoodPass(st, f);
      LogarithmicPasses(OnePass(st, f), p - 1, f);
    }
  }
}
