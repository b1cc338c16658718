/** The table of security events and its writers: app/services/security_event_service.py,
    the aggregator app/services/aggregate_wp_attacks.py, and the unique index on open events
    in app/infra/migrations.py.

    An event_id is a row number, rows are inserted in created_at order and the newest of
    equal stamps is the last inserted.  Instants are in seconds. */
module SecurityEvents {
  import opened Prelude

  const DEDUP_SECONDS := 300

  datatype Severity = Info | Warning | Critical | Other(text: string)

  function Rank(s: Severity): nat {
    match s case Warning => 1 case Critical => 2 case _ => 0
  }

  /** _escalated_severity: the first threshold reached decides. */
  function Escalated(current: Severity, n: int): Severity {
    if n >= 20 then (if Rank(Critical) > Rank(current) then Critical else current)
    else if n >= 5 then (if Rank(Warning) > Rank(current) then Warning else current)
    else current
  }

  /** The CASE of the UPDATE, on the new count. */
  function SqlCase(current: Severity, n: int): Severity {
    if n >= 20 && current != Critical then Critical
    else if n >= 5 && current == Info then Warning
    else current
  }

  /** The SQL and the Python escalation agree exactly on the known severities, and on any
      other while the count is below 5 or at least 20. */
  lemma EscalationsAgree(current: Severity, n: int)
    ensures SqlCase(current, n) == Escalated(current, n) <==> !current.Other? || n < 5 || 20 <= n
  {}

  datatype Row = Row(severity: Severity, category: string, kind: string, ip: Option<string>,
                     hosting: Option<nat>, isOpen: bool, count: nat, createdAt: int, lastSeen: int)

  /** A call; `kind` is its event_type. */
  datatype Report = Report(severity: Severity, category: string, kind: string, ip: Option<string>, hosting: Option<nat>)

  predicate Matches(r: Row, q: Report, now: int) {
    && r.isOpen && r.category == q.category && r.kind == q.kind && r.ip == q.ip && r.hosting == q.hosting
    && now - DEDUP_SECONDS <= r.createdAt
  }

  /** The newest matching row. */
  function Target(rows: seq<Row>, q: Report, now: int): (t: Option<nat>)
    ensures t.Some? ==> t.value < |rows| && Matches(rows[t.value], q, now)
    ensures forall i :: 0 <= i < |rows| && Matches(rows[i], q, now) ==> t.Some? && i <= t.value
  {
    if rows == [] then None
    else if Matches(rows[|rows| - 1], q, now) then Some(|rows| - 1)
    else Target(rows[..|rows| - 1], q, now)
  }

  /** uq_open_wp_security_event refuses the insert; NULL hostings never conflict. */
  predicate Conflicts(rows: seq<Row>, q: Report) {
    && q.hosting.Some?
    && exists i :: 0 <= i < |rows| && rows[i].isOpen && rows[i].kind == q.kind && rows[i].hosting == q.hosting
  }

  /** The open row the index knows for a type and a hosting; the last one if there were more. */
  function OpenRow(rows: seq<Row>, kind: string, hosting: nat): (t: Option<nat>)
    ensures t.Some? ==>
      t.value < |rows| && rows[t.value].isOpen && rows[t.value].kind == kind && rows[t.value].hosting == Some(hosting)
    ensures forall i :: 0 <= i < |rows| && rows[i].isOpen && rows[i].kind == kind && rows[i].hosting == Some(hosting) ==>
      t.Some? && i <= t.value
  {
    if rows == [] then None
    else
      var r := rows[|rows| - 1];
      if r.isOpen && r.kind == kind && r.hosting == Some(hosting) then Some(|rows| - 1)
      else OpenRow(rows[..|rows| - 1], kind, hosting)
  }

  /** The three rules of the aggregator; the threshold of the last is configured. */
  datatype Rule = LoginBruteForce | XmlrpcAttack | RateLimited(threshold: int)

  function Kind(rule: Rule): string {
    match rule
    case LoginBruteForce => "WP_LOGIN_BRUTE_FORCE"
    case XmlrpcAttack => "XMLRPC_ATTACK"
    case RateLimited(_) => RATE_KIND
  }

  const RATE_KIND := "WP_LOGIN_RATE_LIMITED"

  function Threshold(rule: Rule): int {
    match rule case LoginBruteForce => 5 case XmlrpcAttack => 3 case RateLimited(t) => t
  }

  /** severity_fn of the rule. */
  function RuleSeverity(rule: Rule, n: nat): Severity {
    match rule
    case LoginBruteForce => if n >= 20 then Critical else Warning
    case XmlrpcAttack => if n >= 10 then Critical else Warning
    case RateLimited(_) => Warning
  }

  /** One GROUP BY row of the window: at least one event, `cnt` of them, the last address and
      the last time; `raises`: its upsert throws. */
  datatype Group = Group(hosting: nat, cnt: nat, ip: Option<string>, last: int, raises: bool)

  function Max(a: int, b: int): int { if a < b then b else a }

  /** ON CONFLICT DO UPDATE: count and severity are overwritten. */
  function Overwrite(r: Row, rule: Rule, g: Group): Row {
    r.(count := g.cnt, severity := RuleSeverity(rule, g.cnt), lastSeen := Max(r.lastSeen, g.last),
       ip := if g.ip.Some? then g.ip else r.ip)
  }

  function Aggregated(rule: Rule, g: Group, now: int): Row {
    Row(RuleSeverity(rule, g.cnt), "wordpress_auth", Kind(rule), g.ip, Some(g.hosting), true, g.cnt, now, g.last)
  }

  predicate Above(rule: Rule, g: Group) { 0 < g.cnt && Threshold(rule) <= g.cnt && !g.raises }

  /** What the aggregator does with one group. */
  function Upsert(rows: seq<Row>, rule: Rule, g: Group, now: int): seq<Row> {
    if !Above(rule, g) then rows
    else
      match OpenRow(rows, Kind(rule), g.hosting)
      case Some(i) => rows[i := Overwrite(rows[i], rule, g)]
      case None => rows + [Aggregated(rule, g, now)]
  }

  /** One rule over all groups of its window. */
  function UpsertAll(rows: seq<Row>, rule: Rule, gs: seq<Group>, now: int): seq<Row> {
    if gs == [] then rows else Upsert(UpsertAll(rows, rule, gs[..|gs| - 1], now), rule, gs[|gs| - 1], now)
  }

  predicate Below(rule: Rule, g: Group) { g.cnt == 0 || g.cnt < Threshold(rule) }

  function Tally(gs: seq<Group>, p: Group -> bool): nat {
    if gs == [] then 0 else Tally(gs[..|gs| - 1], p) + if p(gs[|gs| - 1]) then 1 else 0
  }

  function Bump(r: Row, now: int): Row {
    r.(count := r.count + 1, lastSeen := now, severity := SqlCase(r.severity, r.count + 1))
  }

  function NewRow(q: Report, now: int): Row {
    Row(q.severity, q.category, q.kind, q.ip, q.hosting, true, 1, now, now)
  }

  /** `raises`: any other exception before the commit.  The result is the event_id. */
  function Log(rows: seq<Row>, q: Report, now: int, raises: bool): (seq<Row>, Option<nat>) {
    if raises then (rows, None)
    else
      match Target(rows, q, now)
      case Some(i) => (rows[i := Bump(rows[i], now)], Some(i))
      case None =>
        if Conflicts(rows, q) then (rows, None) else (rows + [NewRow(q, now)], Some(|rows|))
  }

  function Resolve(rows: seq<Row>, id: nat, raises: bool): (seq<Row>, bool) {
    if raises || id >= |rows| || !rows[id].isOpen then (rows, false)
    else (rows[id := rows[id].(isOpen := false)], true)
  }

  class EventTable {
    var rows: seq<Row>

    constructor ()
      ensures rows == []
    {
      rows := [];
    }

    method LogSecurityEvent(q: Report, now: int, raises: bool) returns (id: Option<nat>)
      modifies this
      ensures (rows, id) == Log(old(rows), q, now, raises)
    {
      if raises { return None; }
      var target := Target(rows, q, now);
      if target.Some? {
        rows := rows[target.value := Bump(rows[target.value], now)];
        return target;
      }
      if Conflicts(rows, q) { return None; }
      rows := rows + [NewRow(q, now)];
      return Some(|rows| - 1);
    }

    method ResolveSecurityEvent(id: nat, raises: bool) returns (ok: bool)
      modifies this
      ensures (rows, ok) == Resolve(old(rows), id, raises)
    {
      if raises || id >= |rows| || !rows[id].isOpen { return false; }
      rows := rows[id := rows[id].(isOpen := false)];
      return true;
    }

    /** One rule of the aggregator; a group whose upsert throws is passed over. */
    method AggregateRule(rule: Rule, gs: seq<Group>, now: int) returns (created: nat, updated: nat, skipped: nat)
      modifies this
      ensures rows == UpsertAll(old(rows), rule, gs, now)
      ensures |rows| == |old(rows)| + created
      ensures created + updated == Tally(gs, (g: Group) => Above(rule, g))
      ensures skipped == Tally(gs, (g: Group) => Below(rule, g))
    {
      created, updated, skipped := 0, 0, 0;
      var k := 0;
      while k < |gs|
        invariant k <= |gs| && rows == UpsertAll(old(rows), rule, gs[..k], now)
        invariant |rows| == |old(rows)| + created
        invariant created + updated == Tally(gs[..k], (g: Group) => Above(rule, g))
        invariant skipped == Tally(gs[..k], (g: Group) => Below(rule, g))
      {
        var g := gs[k];
        assert gs[..k + 1][..k] == gs[..k];
        if Below(rule, g) {
          skipped := skipped + 1;
        } else if !g.raises {
          var open := OpenRow(rows, Kind(rule), g.hosting);
          if open.Some? {
            rows := rows[open.value := Overwrite(rows[open.value], rule, g)];
            updated := updated + 1;
          } else {
            rows := rows + [Aggregated(rule, g, now)];
            created := created + 1;
          }
        }
        k := k + 1;
      }
      assert gs[..k] == gs;
    }
  }

  // ------------------------------------------------------------------ one call

  /** Sum of the counts of one type. */
  function Total(rows: seq<Row>, kind: string): nat {
    if rows == [] then 0
    else Total(rows[..|rows| - 1], kind) + if rows[|rows| - 1].kind == kind then rows[|rows| - 1].count else 0
  }

  function Weight(r: Row, kind: string): nat { if r.kind == kind then r.count else 0 }

  lemma {:induction false} TotalUpdate(rows: seq<Row>, i: nat, r: Row, kind: string)
    requires i < |rows|
    ensures Total(rows[i := r], kind) == Total(rows, kind) - Weight(rows[i], kind) + Weight(r, kind)
  {
    var n := |rows| - 1;
    if i < n {
      assert rows[i := r][..n] == rows[..n][i := r];
      TotalUpdate(rows[..n], i, r, kind);
    } else {
      assert rows[i := r][..n] == rows[..n];
    }
  }

  lemma TotalSnoc(rows: seq<Row>, r: Row, kind: string)
    ensures Total(rows + [r], kind) == Total(rows, kind) + Weight(r, kind)
  {
    assert (rows + [r])[..|rows|] == rows;
  }

  /** A call adds exactly one to the counts of its type, nothing to those of any other, and
      returns an id; or it changes nothing and returns none.  The latter happens exactly when
      it raises, or when the hosting has an open event of this type and none of the last five
      minutes matches the call. */
  lemma CountedOnceOrDropped(rows: seq<Row>, q: Report, now: int, raises: bool, kind: string)
    ensures var (v, id) := Log(rows, q, now, raises);
      && Total(v, kind) == Total(rows, kind) + (if id.Some? && kind == q.kind then 1 else 0)
      && (id.None? ==> v == rows)
      && (id.None? <==> raises || (Conflicts(rows, q) && forall i :: 0 <= i < |rows| ==> !Matches(rows[i], q, now)))
  {
    if !raises {
      var t := Target(rows, q, now);
      if t.Some? {
        TotalUpdate(rows, t.value, Bump(rows[t.value], now), kind);
      } else if !Conflicts(rows, q) {
        TotalSnoc(rows, NewRow(q, now), kind);
      }
    }
  }

  // ------------------------------------------------------------------------ runs

  datatype Event =
    | LogEvent(q: Report, now: int, raises: bool)
    | ResolveEvent(id: nat, raises: bool)
    | UpsertEvent(rule: Rule, g: Group, now: int)

  function Step(rows: seq<Row>, e: Event): seq<Row> {
    match e
    case LogEvent(q, now, raises) => Log(rows, q, now, raises).0
    case ResolveEvent(id, raises) => Resolve(rows, id, raises).0
    case UpsertEvent(rule, g, now) => Upsert(rows, rule, g, now)
  }

  function Run(rows: seq<Row>, es: seq<Event>): seq<Row>
    decreases |es|
  {
    if es == [] then rows else Run(Step(rows, es[0]), es[1..])
  }

  /** Calls of the run about one type that returned an id. */
  function Accepted(rows: seq<Row>, es: seq<Event>, kind: string): nat
    decreases |es|
  {
    if es == [] then 0
    else
      (if es[0].LogEvent? && es[0].q.kind == kind && Log(rows, es[0].q, es[0].now, es[0].raises).1.Some? then 1 else 0)
      + Accepted(Step(rows, es[0]), es[1..], kind)
  }

  /** The event leaves the type to log_security_event. */
  predicate Leaves(e: Event, kind: string) { e.UpsertEvent? ==> Kind(e.rule) != kind }

  lemma UpsertLeavesTotal(rows: seq<Row>, rule: Rule, g: Group, now: int, kind: string)
    requires Kind(rule) != kind
    ensures Total(Upsert(rows, rule, g, now), kind) == Total(rows, kind)
  {
    hide Kind;
    if Above(rule, g) {
      match OpenRow(rows, Kind(rule), g.hosting)
      case Some(i) => TotalUpdate(rows, i, Overwrite(rows[i], rule, g), kind);
      case None => TotalSnoc(rows, Aggregated(rule, g, now), kind);
    }
  }

  /** For a type that no upsert of the run uses, the counts add up to the calls about it that
      returned an id. */
  lemma {:induction false} TotalIsAccepted(rows: seq<Row>, es: seq<Event>, kind: string)
    requires forall i :: 0 <= i < |es| ==> Leaves(es[i], kind)
    ensures Total(Run(rows, es), kind) == Total(rows, kind) + Accepted(rows, es, kind)
    decreases |es|
  {
    hide Log, Upsert, Kind;
    if es != [] {
      assert Leaves(es[0], kind);
      match es[0] {
        case LogEvent(q, now, raises) => CountedOnceOrDropped(rows, q, now, raises, kind);
        case ResolveEvent(id, raises) =>
          if id < |rows| { TotalUpdate(rows, id, rows[id].(isOpen := false), kind); }
        case UpsertEvent(rule, g, now) => UpsertLeavesTotal(rows, rule, g, now, kind);
      }
      TotalIsAccepted(Step(rows, es[0]), es[1..], kind);
    }
  }

  /** Row r may become r' by any writer: nothing is reopened or moved to another place. */
  predicate Persists(r: Row, r': Row) {
    && r'.category == r.category && r'.kind == r.kind && r'.hosting == r.hosting && r'.createdAt == r.createdAt
    && (r'.isOpen ==> r.isOpen)
  }

  /** ... by a writer that neither lowers it nor touches its address. */
  predicate Follows(r: Row, r': Row) {
    Persists(r, r') && r'.ip == r.ip && r.count <= r'.count && Rank(r.severity) <= Rank(r'.severity)
  }

  /** The upsert hits row i. */
  predicate Hits(rows: seq<Row>, e: Event, i: nat) {
    e.UpsertEvent? && Above(e.rule, e.g) && OpenRow(rows, Kind(e.rule), e.g.hosting) == Some(i)
  }

  /** One step keeps every row in its place; it lowers a count exactly when it is an upsert
      that hits the row and counts fewer events in its window, and a severity exactly when the
      rule grades that number lower. */
  lemma StepLowers(rows: seq<Row>, e: Event, i: nat)
    requires i < |rows|
    ensures var v := Step(rows, e);
      && |rows| <= |v| && Persists(rows[i], v[i])
      && (v[i].count < rows[i].count <==> Hits(rows, e, i) && e.g.cnt < rows[i].count)
      && (Rank(v[i].severity) < Rank(rows[i].severity) <==>
            Hits(rows, e, i) && Rank(RuleSeverity(e.rule, e.g.cnt)) < Rank(rows[i].severity))
      && (!Hits(rows, e, i) ==> Follows(rows[i], v[i]))
  {
    hide Kind;
  }

  /** Over every run no row disappears, moves or is reopened; and no count and no severity of
      a type that no upsert of the run uses drops. */
  lemma {:induction false} RowsOnlyGrow(rows: seq<Row>, es: seq<Event>, i: nat)
    requires i < |rows|
    ensures |rows| <= |Run(rows, es)| && Persists(rows[i], Run(rows, es)[i])
    ensures (forall k :: 0 <= k < |es| ==> Leaves(es[k], rows[i].kind)) ==> Follows(rows[i], Run(rows, es)[i])
    decreases |es|
  {
    hide Step, Kind, RuleSeverity;
    if es != [] {
      var u := Step(rows, es[0]);
      StepLowers(rows, es[0], i);
      RowsOnlyGrow(u, es[1..], i);
      if forall k :: 0 <= k < |es| ==> Leaves(es[k], rows[i].kind) {
        assert Leaves(es[0], rows[i].kind);
        assert forall k :: 0 <= k < |es[1..]| ==> es[1..][k] == es[k + 1];
      }
    }
  }

  /** The severity keeps up with the count, up to the rule that never goes past a warning. */
  predicate Loud(r: Row) {
    && 1 <= r.count
    && (20 <= r.count && r.kind != RATE_KIND ==> r.severity.Critical?)
    && (5 <= r.count ==> !r.severity.Info?)
  }

  predicate SameOpen(r: Row, s: Row) {
    r.isOpen && s.isOpen && r.kind == s.kind && r.hosting == s.hosting && r.hosting.Some?
  }

  ghost predicate OneOpen(rows: seq<Row>) {
    forall i, j :: 0 <= i < |rows| && 0 <= j < |rows| && SameOpen(rows[i], rows[j]) ==> i == j
  }

  ghost predicate AllLoud(rows: seq<Row>) { forall i :: 0 <= i < |rows| ==> Loud(rows[i]) }

  lemma StepKeepsOneOpen(rows: seq<Row>, e: Event)
    requires OneOpen(rows)
    ensures OneOpen(Step(rows, e))
  {
    hide Kind, RuleSeverity;
    var v := Step(rows, e);
    forall i, j | 0 <= i < |v| && 0 <= j < |v| && SameOpen(v[i], v[j]) ensures i == j {
      if i < |rows| && j < |rows| { assert SameOpen(rows[i], rows[j]); }
    }
  }

  /** Only the third rule writes its type. */
  lemma KindsDiffer(rule: Rule)
    ensures Kind(rule) == RATE_KIND <==> rule.RateLimited?
  {
    assert |"WP_LOGIN_BRUTE_FORCE"| == 20 && |"XMLRPC_ATTACK"| == 13 && |RATE_KIND| == 21;
  }

  lemma StepKeepsLoud(rows: seq<Row>, e: Event)
    requires AllLoud(rows)
    ensures AllLoud(Step(rows, e))
  {
    hide Kind;
    if e.UpsertEvent? { KindsDiffer(e.rule); }
  }

  lemma {:induction false} RunKeepsSound(rows: seq<Row>, es: seq<Event>)
    requires OneOpen(rows) && AllLoud(rows)
    ensures OneOpen(Run(rows, es)) && AllLoud(Run(rows, es))
    decreases |es|
  {
    hide OneOpen, AllLoud, Step;
    if es != [] {
      StepKeepsOneOpen(rows, es[0]);
      StepKeepsLoud(rows, es[0]);
      RunKeepsSound(Step(rows, es[0]), es[1..]);
    }
  }

  /** After any run of all writers: a hosting has at most one open event of a type; a count of
      5 or more is not info; and one of 20 or more is critical, unless it is of the type of
      the rate-limit rule. */
  lemma TableIsSound(es: seq<Event>)
    ensures var rows := Run([], es);
      && (forall i :: 0 <= i < |rows| ==>
            && (20 <= rows[i].count && rows[i].kind != RATE_KIND ==> rows[i].severity == Critical)
            && (5 <= rows[i].count && !rows[i].severity.Other? ==>
                  rows[i].severity == Warning || rows[i].severity == Critical))
      && (forall i, j :: 0 <= i < |rows| && 0 <= j < |rows| && rows[i].isOpen && rows[j].isOpen ==>
            rows[i].kind == rows[j].kind && rows[i].hosting == rows[j].hosting && rows[i].hosting.Some? ==> i == j)
  {
    hide Run;
    RunKeepsSound([], es);
    var rows := Run([], es);
    assert forall i :: 0 <= i < |rows| ==> Loud(rows[i]);
    forall i, j | 0 <= i < |rows| && 0 <= j < |rows| && rows[i].isOpen && rows[j].isOpen
        && rows[i].kind == rows[j].kind && rows[i].hosting == rows[j].hosting && rows[i].hosting.Some?
      ensures i == j
    {
      assert SameOpen(rows[i], rows[j]);
    }
  }

  /** No count of 20 or more is below critical. */
  ghost predicate Graded(rows: seq<Row>) { forall i :: 0 <= i < |rows| && 20 <= rows[i].count ==> rows[i].severity.Critical? }

  /** A step breaks the threshold of 20 exactly when it is an upsert of the rate-limit rule
      with 20 or more events in its window. */
  lemma StepBreaksThreshold(rows: seq<Row>, e: Event)
    requires Graded(rows)
    ensures !Graded(Step(rows, e)) <==> e.UpsertEvent? && e.rule.RateLimited? && Above(e.rule, e.g) && 20 <= e.g.cnt
  {
    hide Kind;
    var v := Step(rows, e);
    if e.UpsertEvent? && Above(e.rule, e.g) {
      var open := OpenRow(rows, Kind(e.rule), e.g.hosting);
      var i := if open.Some? then open.value else |rows|;
      assert v[i].count == e.g.cnt && v[i].severity == RuleSeverity(e.rule, e.g.cnt);
    }
  }

  /** The same hosting over two windows: 25 failed logins, then 6.  The count falls from 25 to
      6 and the severity from critical to warning. */
  lemma LaterWindowLowers(h: nat, ip: Option<string>, last: int, now: int)
    ensures var first := Run([], [UpsertEvent(LoginBruteForce, Group(h, 25, ip, last, false), now)]);
      var second := Run(first, [UpsertEvent(LoginBruteForce, Group(h, 6, ip, last, false), now)]);
      && |first| == |second| == 1
      && first[0].count == 25 && first[0].severity == Critical
      && second[0].count == 6 && second[0].severity == Warning
  {
    var e1 := UpsertEvent(LoginBruteForce, Group(h, 25, ip, last, false), now);
    var e2 := UpsertEvent(LoginBruteForce, Group(h, 6, ip, last, false), now);
    assert [e1][1..] == [] && [e2][1..] == [];
    var first := Step([], e1);
    assert Run([], [e1]) == first;
    assert first == [Aggregated(LoginBruteForce, Group(h, 25, ip, last, false), now)];
    assert Run(first, [e2]) == Step(first, e2);
  }

  /** One address with 25 failed logins: a count of 25 that is only a warning. */
  lemma RateLimitStaysWarning(h: nat, ip: Option<string>, last: int, now: int)
    ensures var rows := Run([], [UpsertEvent(RateLimited(5), Group(h, 25, ip, last, false), now)]);
      |rows| == 1 && rows[0].count == 25 && rows[0].severity == Warning
  {
    var e := UpsertEvent(RateLimited(5), Group(h, 25, ip, last, false), now);
    assert [e][1..] == [];
    assert Run([], [e]) == Step([], e);
  }

  /** While a hosting has an open event of a type, in any table a run can reach, another report
      of that type counts exactly when category and address are those of the open event and
      it is not older than five minutes.  Otherwise it leaves no trace. */
  lemma RepeatReport(es: seq<Event>, i: nat, q: Report, now: int)
    requires var rows := Run([], es);
      i < |rows| && rows[i].isOpen && rows[i].hosting.Some? && q.hosting == rows[i].hosting && q.kind == rows[i].kind
    ensures var rows := Run([], es);
      var (v, id) := Log(rows, q, now, false);
      && (id.Some? <==> q.category == rows[i].category && q.ip == rows[i].ip && now - DEDUP_SECONDS <= rows[i].createdAt)
      && (id.Some? ==> id == Some(i) && v == rows[i := Bump(rows[i], now)])
      && (id.None? ==> v == rows)
  {
    hide Run;
    RunKeepsSound([], es);
    var rows := Run([], es);
    assert SameOpen(rows[i], rows[i]);
    assert Conflicts(rows, q);
    var t := Target(rows, q, now);
    if t.Some? { assert SameOpen(rows[t.value], rows[i]); }
  }

  // ------------------------------------------------------------- what one call stores

  ghost predicate SameIncident(r: Row, q: Report, now: int) {
    r.isOpen && r.category == q.category && r.kind == q.kind && r.ip == q.ip && r.hosting == q.hosting
    && now <= r.createdAt + 300
  }

  /** A report of an incident of the last five minutes adds one to the newest row of it, sets
      its last time and escalates it at 5 and 20; another one is stored with all it says and
      the count 1, unless its hosting has an open event of the type already. */
  lemma ReportExactly(rows: seq<Row>, q: Report, now: int)
    ensures var (v, id) := Log(rows, q, now, false);
      var known := exists i :: 0 <= i < |rows| && SameIncident(rows[i], q, now);
      var taken := q.hosting.Some?
                   && exists i :: 0 <= i < |rows| && rows[i].isOpen && rows[i].kind == q.kind && rows[i].hosting == q.hosting;
      && (known ==>
            && id.Some? && id.value < |rows| && SameIncident(rows[id.value], q, now)
            && (forall j :: id.value < j < |rows| ==> !SameIncident(rows[j], q, now))
            && var r := rows[id.value];
               var severity := if 20 <= r.count + 1 then Critical
                               else if 5 <= r.count + 1 && r.severity == Info then Warning else r.severity;
               v == rows[id.value := r.(count := r.count + 1, lastSeen := now, severity := severity)])
      && (!known && !taken ==>
            && id == Some(|rows|)
            && v == rows + [Row(q.severity, q.category, q.kind, q.ip, q.hosting, true, 1, now, now)])
      && (!known && taken ==> id.None? && v == rows)
  {
    var t := Target(rows, q, now);
    assert forall i :: 0 <= i < |rows| ==> Matches(rows[i], q, now) == SameIncident(rows[i], q, now);
    if t.Some? { assert SameIncident(rows[t.value], q, now); }
  }

  /** Resolving closes an open event and nothing else, once. */
  lemma ResolveExactly(rows: seq<Row>, id: nat, raises: bool)
    ensures var (v, ok) := Resolve(rows, id, raises);
      && (ok <==> !raises && id < |rows| && rows[id].isOpen)
      && |v| == |rows| && (forall i :: 0 <= i < |rows| && i != id ==> v[i] == rows[i])
      && (ok ==> v[id] == rows[id].(isOpen := false) && Resolve(v, id, false) == (v, false))
      && (!ok ==> v == rows)
  {}

  /** Over every run a resolved event stays closed, and the next report of its type for its
      hosting opens a new one. */
  lemma ResolvedMakesRoom(es: seq<Event>, id: nat, q: Report, now: int)
    requires var rows := Run([], es);
      id < |rows| && rows[id].isOpen && rows[id].hosting.Some? && q.hosting == rows[id].hosting && q.kind == rows[id].kind
    ensures var v := Resolve(Run([], es), id, false).0;
      Log(v, q, now, false) ==
        (v + [Row(q.severity, q.category, q.kind, q.ip, q.hosting, true, 1, now, now)], Some(|v|))
  {
    hide Run;
    RunKeepsSound([], es);
    var rows := Run([], es);
    var v := Resolve(rows, id, false).0;
    assert SameOpen(rows[id], rows[id]);
    assert forall i :: 0 <= i < |v| ==>
      (v[i].isOpen && v[i].kind == q.kind && v[i].hosting == q.hosting <==> i != id && SameOpen(rows[i], rows[id]));
    assert Target(v, q, now).None?;
  }

  /** What one group of the aggregator's window does: nothing below the threshold of its rule;
      otherwise the open event of the type and hosting takes over count and severity of the
      window, or a new one is opened with them. */
  lemma AggregateExactly(rows: seq<Row>, rule: Rule, g: Group, now: int)
    ensures var v := Upsert(rows, rule, g, now);
      var (kind, threshold, critical) :=
        match rule
        case LoginBruteForce => ("WP_LOGIN_BRUTE_FORCE", 5, 20 <= g.cnt)
        case XmlrpcAttack => ("XMLRPC_ATTACK", 3, 10 <= g.cnt)
        case RateLimited(n) => ("WP_LOGIN_RATE_LIMITED", n, false);
      var severity := if critical then Critical else Warning;
      var known := exists i :: 0 <= i < |rows| && rows[i].isOpen && rows[i].kind == kind
                               && rows[i].hosting == Some(g.hosting);
      && (g.raises || g.cnt == 0 || g.cnt < threshold ==> v == rows)
      && (!g.raises && g.cnt != 0 && threshold <= g.cnt && !known ==>
            v == rows + [Row(severity, "wordpress_auth", kind, g.ip, Some(g.hosting), true, g.cnt, now, g.last)])
      && (!g.raises && g.cnt != 0 && threshold <= g.cnt && known ==>
            exists i :: 0 <= i < |rows| && rows[i].isOpen && rows[i].kind == kind && rows[i].hosting == Some(g.hosting)
              && v == rows[i := rows[i].(count := g.cnt, severity := severity,
                                         ip := if g.ip.Some? then g.ip else rows[i].ip,
                                         lastSeen := if rows[i].lastSeen < g.last then g.last else rows[i].lastSeen)])
  {
    if Above(rule, g) {
      var t := OpenRow(rows, Kind(rule), g.hosting);
    }
  }

  /** Which groups the aggregator passes over as too small, and how it counts. */
  lemma TallyExactly(gs: seq<Group>, rule: Rule)
    ensures var threshold := match rule case LoginBruteForce => 5 case XmlrpcAttack => 3 case RateLimited(n) => n;
      var small := set k | 0 <= k < |gs| && (gs[k].cnt == 0 || gs[k].cnt < threshold);
      var written := set k | 0 <= k < |gs| && gs[k].cnt != 0 && threshold <= gs[k].cnt && !gs[k].raises;
      && Tally(gs, (g: Group) => Below(rule, g)) == |small|
      && Tally(gs, (g: Group) => Above(rule, g)) == |written|
  {
    TallySize(gs, (g: Group) => Below(rule, g));
    TallySize(gs, (g: Group) => Above(rule, g));
    var threshold := match rule case LoginBruteForce => 5 case XmlrpcAttack => 3 case RateLimited(n) => n;
    assert Chosen(gs, (g: Group) => Below(rule, g))
      == set k | 0 <= k < |gs| && (gs[k].cnt == 0 || gs[k].cnt < threshold);
    assert Chosen(gs, (g: Group) => Above(rule, g))
      == set k | 0 <= k < |gs| && gs[k].cnt != 0 && threshold <= gs[k].cnt && !gs[k].raises;
  }

  function Chosen(gs: seq<Group>, p: Group -> bool): set<int> { set k | 0 <= k < |gs| && p(gs[k]) }

  lemma {:induction false} TallySize(gs: seq<Group>, p: Group -> bool)
    ensures Tally(gs, p) == |Chosen(gs, p)|
  {
    if gs == [] {
      assert Chosen(gs, p) == {};
    } else {
      var n := |gs| - 1;
      TallySize(gs[..n], p);
      assert Chosen(gs, p) == Chosen(gs[..n], p) + if p(gs[n]) then {n} else {};
    }
  }

  /** The open event of a type and hosting has this count and severity. */
  predicate Shows(rows: seq<Row>, kind: string, h: nat, n: nat, severity: Severity) {
    exists i :: 0 <= i < |rows| && rows[i].isOpen && rows[i].kind == kind && rows[i].hosting == Some(h)
      && rows[i].count == n && rows[i].severity == severity
  }

  /** After a rule has gone over its window, one group for each hosting, every group that is big
      enough and did not raise is an open event with its count and severity. */
  lemma {:induction false} WindowIsShown(rows: seq<Row>, rule: Rule, gs: seq<Group>, now: int, k: nat)
    requires forall m, n :: 0 <= m < n < |gs| ==> gs[m].hosting != gs[n].hosting
    requires k < |gs| && Above(rule, gs[k])
    ensures Shows(UpsertAll(rows, rule, gs, now), Kind(rule), gs[k].hosting, gs[k].cnt, RuleSeverity(rule, gs[k].cnt))
  {
    hide Kind, RuleSeverity, Shows;
    var n := |gs| - 1;
    var before := UpsertAll(rows, rule, gs[..n], now);
    if k == n {
      UpsertShows(before, rule, gs[n], now);
    } else {
      WindowIsShown(rows, rule, gs[..n], now, k);
      UpsertLeaves(before, rule, gs[n], now, gs[k].hosting, gs[k].cnt, RuleSeverity(rule, gs[k].cnt));
    }
  }

  lemma UpsertShows(rows: seq<Row>, rule: Rule, g: Group, now: int)
    requires Above(rule, g)
    ensures Shows(Upsert(rows, rule, g, now), Kind(rule), g.hosting, g.cnt, RuleSeverity(rule, g.cnt))
  {
    hide Kind, RuleSeverity;
    var v := Upsert(rows, rule, g, now);
    match OpenRow(rows, Kind(rule), g.hosting)
    case Some(i) => assert v[i].count == g.cnt;
    case None => assert v[|rows|].count == g.cnt;
  }

  lemma UpsertLeaves(rows: seq<Row>, rule: Rule, g: Group, now: int, h: nat, n: nat, severity: Severity)
    requires h != g.hosting && Shows(rows, Kind(rule), h, n, severity)
    ensures Shows(Upsert(rows, rule, g, now), Kind(rule), h, n, severity)
  {
    hide Kind, RuleSeverity;
    var i :| 0 <= i < |rows| && rows[i].isOpen && rows[i].kind == Kind(rule) && rows[i].hosting == Some(h)
      && rows[i].count == n && rows[i].severity == severity;
    assert Upsert(rows, rule, g, now)[i] == rows[i];
  }
}
