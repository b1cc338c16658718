/** The top-up endpoint and its idempotency table: app/api/main.py.  Money is in cents.
    The credit and the key are two commits. */
module Topup {
  import opened Prelude

  const MAX_CENTS := 100000

  datatype Request = Request(user: nat, cents: int, key: Option<string>)

  predicate ValidAmount(q: Request) { 0 < q.cents <= MAX_CENTS }

  /** An empty key counts as none. */
  predicate Keyed(q: Request) { q.key.Some? && q.key.value != "" }

  datatype KeyRow = KeyRow(user: nat, cents: int)

  datatype State = State(balance: map<nat, int>, keys: map<string, KeyRow>)

  /** Where an exception hits: up to the credit, between the two commits (with a key), or
      after everything was written. */
  datatype Fault = NoFault | BeforeCredit | BetweenCommits | AfterWrites

  datatype Outcome = Rejected422 | Replayed(balance: int) | Credited(balance: int) | NotFound404 | Raised500

  function Balance(s: State, user: nat): int { if user in s.balance then s.balance[user] else 0 }

  /** SELECT ... WHERE idempotency_key = k AND user_id = u. */
  predicate Found(s: State, q: Request) { Keyed(q) && q.key.value in s.keys && s.keys[q.key.value].user == q.user }

  function Credit(s: State, q: Request): State {
    if q.user in s.balance then s.(balance := s.balance[q.user := s.balance[q.user] + q.cents]) else s
  }

  /** INSERT ... ON CONFLICT (idempotency_key) DO NOTHING. */
  function RecordKey(s: State, q: Request): State {
    if Keyed(q) && q.key.value !in s.keys
    then s.(keys := s.keys[q.key.value := KeyRow(q.user, q.cents)]) else s
  }

  function Call(s: State, q: Request, fault: Fault): (State, Outcome) {
    if !ValidAmount(q) then (s, Rejected422)
    else if fault.BeforeCredit? then (s, Raised500)
    else if Found(s, q) then
      (s, if fault.NoFault? && q.user in s.balance then Replayed(s.balance[q.user]) else Raised500)
    else
      var s1 := Credit(s, q);
      if fault.BetweenCommits? then (s1, Raised500)
      else
        var s2 := RecordKey(s1, q);
        (s2, if fault.AfterWrites? then Raised500
             else if q.user in s2.balance then Credited(s2.balance[q.user]) else NotFound404)
  }

  class Wallets {
    var balance: map<nat, int>
    var topupIdempotency: map<string, KeyRow>

    function Snapshot(): State
      reads this
    {
      State(balance, topupIdempotency)
    }

    constructor (balance: map<nat, int>)
      ensures Snapshot() == State(balance, map[])
    {
      this.balance := balance;
      topupIdempotency := map[];
    }

    method TopUp(q: Request, fault: Fault) returns (r: Outcome)
      modifies this
      ensures (Snapshot(), r) == Call(old(Snapshot()), q, fault)
    {
      if !ValidAmount(q) { return Rejected422; }
      if fault.BeforeCredit? { return Raised500; }
      if Keyed(q) {
        var k := q.key.value;
        if k in topupIdempotency && topupIdempotency[k].user == q.user {
          if !fault.NoFault? || q.user !in balance { return Raised500; }
          return Replayed(balance[q.user]);
        }
      }
      if q.user in balance { balance := balance[q.user := balance[q.user] + q.cents]; }
      if fault.BetweenCommits? { return Raised500; }
      if Keyed(q) {
        var k := q.key.value;
        if k !in topupIdempotency { topupIdempotency := topupIdempotency[k := KeyRow(q.user, q.cents)]; }
      }
      if fault.AfterWrites? { return Raised500; }
      if q.user !in balance { return NotFound404; }
      return Credited(balance[q.user]);
    }
  }

  // ------------------------------------------------------------------------ runs

  datatype Attempt = Attempt(q: Request, fault: Fault)

  function Run(s: State, cs: seq<Attempt>): State {
    if cs == [] then s else Call(Run(s, cs[..|cs| - 1]), cs[|cs| - 1].q, cs[|cs| - 1].fault).0
  }

  /** The attempt got past validation and past the first exception. */
  predicate Effective(c: Attempt) { ValidAmount(c.q) && !c.fault.BeforeCredit? }

  /** Attempt n should credit: it is effective, and keyless or the first of its key. */
  predicate Due(cs: seq<Attempt>, n: nat)
    requires n < |cs|
  {
    && Effective(cs[n])
    && (Keyed(cs[n].q) ==> forall m :: 0 <= m < n && Effective(cs[m]) ==> cs[m].q.key != cs[n].q.key)
  }

  /** One amount for each distinct key and one for each keyless call, of the first n. */
  function Owed(cs: seq<Attempt>, n: nat, user: nat): int
    requires n <= |cs|
  {
    if n == 0 then 0
    else Owed(cs, n - 1, user) + if Due(cs, n - 1) && cs[n - 1].q.user == user then cs[n - 1].q.cents else 0
  }

  ghost predicate KeysNotShared(cs: seq<Attempt>) {
    forall m, n :: 0 <= m < |cs| && 0 <= n < |cs| && Keyed(cs[m].q) && cs[m].q.key == cs[n].q.key ==>
      cs[m].q.user == cs[n].q.user
  }

  ghost predicate NoneBetween(cs: seq<Attempt>) {
    forall n :: 0 <= n < |cs| && Keyed(cs[n].q) ==> !cs[n].fault.BetweenCommits?
  }

  /** The effective attempts have their keys in the table, under their users. */
  ghost predicate Stored(s: State, cs: seq<Attempt>, n: nat)
    requires n <= |cs|
  {
    forall m :: 0 <= m < n && Effective(cs[m]) && Keyed(cs[m].q) ==>
      cs[m].q.key.value in s.keys && s.keys[cs[m].q.key.value].user == cs[m].q.user
  }

  ghost predicate Uses(cs: seq<Attempt>, n: nat, k: string)
    requires n <= |cs|
  {
    exists m :: 0 <= m < n && Effective(cs[m]) && cs[m].q.key == Some(k)
  }

  /** ... and the table has no other keys. */
  ghost predicate Recorded(s: State, cs: seq<Attempt>, n: nat)
    requires n <= |cs|
  {
    Stored(s, cs, n) && forall k :: k in s.keys ==> Uses(cs, n, k)
  }

  lemma {:induction false} RunRecords(s: State, cs: seq<Attempt>, n: nat)
    requires n <= |cs| && s.keys == map[] && KeysNotShared(cs) && NoneBetween(cs)
    ensures Recorded(Run(s, cs[..n]), cs, n) && Run(s, cs[..n]).balance.Keys == s.balance.Keys
  {
    if n > 0 {
      RunRecords(s, cs, n - 1);
      assert cs[..n][..n - 1] == cs[..n - 1];
      StepRecords(Run(s, cs[..n - 1]), cs, n - 1);
    }
  }

  lemma StepRecords(s: State, cs: seq<Attempt>, n: nat)
    requires n < |cs| && KeysNotShared(cs) && NoneBetween(cs) && Recorded(s, cs, n)
    ensures var v := Call(s, cs[n].q, cs[n].fault).0; Recorded(v, cs, n + 1) && v.balance.Keys == s.balance.Keys
  {
    var c := cs[n];
    var v := Call(s, c.q, c.fault).0;
    forall k | k in v.keys ensures Uses(cs, n + 1, k) {
      if k in s.keys {
        assert Uses(cs, n, k);
      } else {
        assert Effective(cs[n]) && cs[n].q.key == Some(k);
      }
    }
    KeepsRows(s, c.q, c.fault);
    if Effective(c) && Keyed(c.q) {
      var k := c.q.key.value;
      if k in s.keys { OwnerOfKey(s, cs, n, k); }
      assert k in v.keys && v.keys[k].user == c.q.user;
    }
    hide Call, Effective, KeysNotShared;
  }

  lemma KeepsRows(s: State, q: Request, fault: Fault)
    ensures forall k :: k in s.keys ==> k in Call(s, q, fault).0.keys && Call(s, q, fault).0.keys[k] == s.keys[k]
  {}

  lemma OwnerOfKey(s: State, cs: seq<Attempt>, n: nat, k: string)
    requires n < |cs| && KeysNotShared(cs) && Recorded(s, cs, n) && k in s.keys && cs[n].q.key == Some(k) && k != ""
    ensures s.keys[k].user == cs[n].q.user && Uses(cs, n, k)
  {
    assert Uses(cs, n, k);
    var m :| 0 <= m < n && Effective(cs[m]) && cs[m].q.key == Some(k);
  }

  /** Exactly once: over any sequence of calls and retries without a failure between the two
      commits, and with no key used by two users, a balance grows by one amount for each
      distinct key, that of its first effective call, and one for each keyless call. */
  lemma {:induction false} ExactlyOnce(s: State, cs: seq<Attempt>, n: nat, user: nat)
    requires n <= |cs| && s.keys == map[] && KeysNotShared(cs) && NoneBetween(cs) && user in s.balance
    ensures Balance(Run(s, cs[..n]), user) == Balance(s, user) + Owed(cs, n, user)
  {
    if n == 0 {
      assert cs[..0] == [];
    } else {
      ExactlyOnce(s, cs, n - 1, user);
      RunRecords(s, cs, n - 1);
      assert cs[..n][..n - 1] == cs[..n - 1];
      CreditsIfDue(Run(s, cs[..n - 1]), cs, n - 1, user);
    }
  }

  lemma CreditsIfDue(s: State, cs: seq<Attempt>, n: nat, user: nat)
    requires n < |cs| && KeysNotShared(cs) && Recorded(s, cs, n) && user in s.balance
    ensures Balance(Call(s, cs[n].q, cs[n].fault).0, user)
      == Balance(s, user) + if Due(cs, n) && cs[n].q.user == user then cs[n].q.cents else 0
  {
    var c := cs[n];
    if Effective(c) && Keyed(c.q) {
      if c.q.key.value in s.keys {
        OwnerOfKey(s, cs, n, c.q.key.value);
        assert Found(s, c.q) && !Due(cs, n);
      } else {
        assert Due(cs, n);
      }
    }
  }

  // ------------------------------------------------------------- one call, case by case

  /** What one call does: an amount of 1 cent to 1000 whole units is accepted; a key the same
      user has used replays; anything else credits the amount once and records the key, with
      its user and amount, unless somebody has it.  An empty key is no key. */
  lemma CallExactly(s: State, q: Request, fault: Fault)
    ensures var (v, r) := Call(s, q, fault);
      var valid := 1 <= q.cents <= 100000;
      var keyed := q.key.Some? && q.key.value != "";
      var replay := keyed && q.key.value in s.keys && s.keys[q.key.value].user == q.user;
      var known := q.user in s.balance;
      var credited := valid && fault != BeforeCredit && !replay && known;
      var recorded := valid && !replay && fault in {NoFault, AfterWrites} && keyed && q.key.value !in s.keys;
      && (r == Rejected422 <==> !valid)
      && (r.Replayed? <==> valid && replay && known && fault == NoFault)
      && (r.Credited? <==> valid && !replay && known && fault == NoFault)
      && (r == NotFound404 <==> valid && !replay && !known && fault == NoFault)
      && v.balance == (if credited then s.balance[q.user := s.balance[q.user] + q.cents] else s.balance)
      && v.keys == (if recorded then s.keys[q.key.value := KeyRow(q.user, q.cents)] else s.keys)
  {}

  // ------------------------------------------------------------- retries, case by case

  /** Repeating a call credits nothing more exactly when the key was free or the user's own. */
  lemma RepeatIsIdempotent(s: State, q: Request)
    requires ValidAmount(q) && Keyed(q) && q.user in s.balance
    ensures var once := Call(s, q, NoFault).0;
      var twice := Call(once, q, NoFault).0;
      Balance(twice, q.user) == Balance(once, q.user) <==>
        (q.key.value in s.keys ==> s.keys[q.key.value].user == q.user)
  {}

  /** A failed first attempt and a good retry credit the amount once exactly when the failure
      was not between the two commits; then they credit it twice. */
  lemma RetryAfterFault(s: State, q: Request, fault: Fault)
    requires ValidAmount(q) && Keyed(q) && q.user in s.balance && q.key.value !in s.keys
    ensures var after := Call(Call(s, q, fault).0, q, NoFault).0;
      && (Balance(after, q.user) == Balance(s, q.user) + q.cents <==> !fault.BetweenCommits?)
      && (fault.BetweenCommits? ==> Balance(after, q.user) == Balance(s, q.user) + 2 * q.cents)
  {}

  /** A success reports the balance as it then is; nobody else's balance moves, and no key
      ever changes its owner. */
  lemma ReportsTheBalance(s: State, q: Request, fault: Fault, user: nat, k: string)
    ensures var (v, r) := Call(s, q, fault);
      && (r.Credited? || r.Replayed? ==> q.user in v.balance && r.balance == v.balance[q.user])
      && (r.Replayed? ==> v == s)
      && (user != q.user ==> Balance(v, user) == Balance(s, user))
      && (k in s.keys ==> k in v.keys && v.keys[k] == s.keys[k])
  {}

  // ------------------------------------------------------------ calls at the same time

  /** How far a keyed call has come: it has looked for its key and not found it, when `at`
      writes had been made; or it has credited and not recorded the key yet. */
  datatype Phase = Looked(q: Request, at: nat) | Unrecorded(q: Request)

  /** A committed write of some call. */
  datatype Note = Credits(q: Request) | Records(q: Request)

  datatype World = World(s: State, calls: map<nat, Phase>, log: seq<Note>)

  /** Fail: the call throws and is gone, wherever it is. */
  datatype Event = Look(p: nat, q: Request) | Pay(p: nat) | Record(p: nat) | Fail(p: nat)

  /** A keyless call looks for nothing and records nothing. */
  function Step(w: World, e: Event): World {
    match e
    case Look(p, q) =>
      if p in w.calls || !ValidAmount(q) || Found(w.s, q) then w
      else w.(calls := w.calls[p := Looked(q, |w.log|)])
    case Pay(p) =>
      if p !in w.calls || !w.calls[p].Looked? then w
      else
        var q := w.calls[p].q;
        World(Credit(w.s, q), if Keyed(q) then w.calls[p := Unrecorded(q)] else w.calls - {p}, w.log + [Credits(q)])
    case Record(p) =>
      if p !in w.calls || !w.calls[p].Unrecorded? then w
      else
        var q := w.calls[p].q;
        World(RecordKey(w.s, q), w.calls - {p}, w.log + [Records(q)])
    case Fail(p) => w.(calls := w.calls - {p})
  }

  function RunCalls(w: World, es: seq<Event>): World
    decreases |es|
  {
    if es == [] then w else RunCalls(Step(w, es[0]), es[1..])
  }

  predicate SameKey(q: Request, r: Request) { Keyed(q) && q.key == r.key }

  /** No write on the key since the log had length n. */
  predicate Quiet(log: seq<Note>, n: nat, q: Request) {
    forall i :: 0 <= i < |log| && n <= i ==> !SameKey(q, log[i].q)
  }

  /** No other write on the key falls between a call's look and its record; a credit with a key
      is recorded; and a key belongs to one user. */
  ghost predicate Undisturbed(w: World, e: Event) {
    match e
    case Look(_, q) => OneOwner(w, q)
    case Pay(p) =>
      p in w.calls && w.calls[p].Looked? ==>
        var c := w.calls[p];
        Quiet(w.log, c.at, c.q)
        && forall p' :: p' in w.calls && w.calls[p'].Unrecorded? ==> !SameKey(c.q, w.calls[p'].q)
    case Record(_) => true
    case Fail(p) => p in w.calls ==> !w.calls[p].Unrecorded?
  }

  /** Everybody who has used the key is this user. */
  ghost predicate OneOwner(w: World, q: Request) {
    && (forall i :: 0 <= i < |w.log| && SameKey(q, w.log[i].q) ==> w.log[i].q.user == q.user)
    && (forall p :: p in w.calls && SameKey(q, w.calls[p].q) ==> w.calls[p].q.user == q.user)
  }

  ghost predicate AllUndisturbed(w: World, es: seq<Event>)
    decreases |es|
  {
    es == [] || (Undisturbed(w, es[0]) && AllUndisturbed(Step(w, es[0]), es[1..]))
  }

  ghost predicate Paid(log: seq<Note>, n: nat, q: Request) {
    exists i :: 0 <= i < |log| && i < n && log[i].Credits? && SameKey(q, log[i].q)
  }

  ghost predicate Pending(w: World, q: Request) {
    exists p :: p in w.calls && w.calls[p].Unrecorded? && SameKey(q, w.calls[p].q)
  }

  /** A key in the table is its owner's; a credit with a key is in the table or pending. */
  ghost predicate Settled(w: World) {
    && (forall i :: 0 <= i < |w.log| && w.log[i].Credits? && Keyed(w.log[i].q) ==>
          InTable(w.s, w.log[i].q) || Pending(w, w.log[i].q))
    && (forall k :: k in w.s.keys ==>
          exists i :: 0 <= i < |w.log| && w.log[i].q.key == Some(k) && w.log[i].q.user == w.s.keys[k].user)
  }

  predicate InTable(s: State, q: Request) {
    Keyed(q) && q.key.value in s.keys && s.keys[q.key.value].user == q.user
  }

  /** A call that looked and did not find its key: what was paid under it before was pending
      then, so it is pending still or a write on the key has come since. */
  ghost predicate LookedRight(w: World) {
    forall p :: p in w.calls && w.calls[p].Looked? && Keyed(w.calls[p].q) ==>
      w.calls[p].at <= |w.log| &&
      (Paid(w.log, |w.log|, w.calls[p].q) && Quiet(w.log, w.calls[p].at, w.calls[p].q) ==> Pending(w, w.calls[p].q))
  }

  /** No key is paid twice. */
  ghost predicate PaidOnce(log: seq<Note>) {
    forall i, j :: 0 <= i < j < |log| && log[i].Credits? && log[j].Credits? ==> !SameKey(log[i].q, log[j].q)
  }

  ghost predicate CallsOwn(w: World) {
    && (forall p, i :: p in w.calls && 0 <= i < |w.log| && SameKey(w.calls[p].q, w.log[i].q) ==>
          w.calls[p].q.user == w.log[i].q.user)
    && (forall p, p' :: p in w.calls && p' in w.calls && SameKey(w.calls[p].q, w.calls[p'].q) ==>
          w.calls[p].q.user == w.calls[p'].q.user)
    && (forall p :: p in w.calls && w.calls[p].Unrecorded? ==> Keyed(w.calls[p].q))
  }

  ghost predicate Inv(w: World) { Settled(w) && LookedRight(w) && PaidOnce(w.log) && CallsOwn(w) }

  /** Credits of a user in the log. */
  function PaidTo(log: seq<Note>, user: nat): int {
    if log == [] then 0
    else
      var n := log[|log| - 1];
      PaidTo(log[..|log| - 1], user) + if n.Credits? && n.q.user == user then n.q.cents else 0
  }

  lemma PaidSnoc(log: seq<Note>, n: Note, q: Request)
    ensures Paid(log + [n], |log| + 1, q) <==> Paid(log, |log|, q) || (n.Credits? && SameKey(q, n.q))
    ensures forall at: nat :: at <= |log| ==> (Quiet(log + [n], at, q) <==> Quiet(log, at, q) && !SameKey(q, n.q))
  {
    var v := log + [n];
    if Paid(log, |log|, q) {
      var i :| 0 <= i < |log| && log[i].Credits? && SameKey(q, log[i].q);
      assert v[i] == log[i];
    }
    assert v[|log|] == n;
    assert forall i :: 0 <= i < |log| ==> v[i] == log[i];
  }

  lemma LookFindsPending(w: World, q: Request)
    requires Inv(w) && OneOwner(w, q) && !Found(w.s, q)
    ensures Paid(w.log, |w.log|, q) ==> Pending(w, q)
  {
    if Paid(w.log, |w.log|, q) {
      var i :| 0 <= i < |w.log| && w.log[i].Credits? && SameKey(q, w.log[i].q);
      assert InTable(w.s, w.log[i].q) || Pending(w, w.log[i].q);
      assert !InTable(w.s, w.log[i].q);
      PendingSame(w, w.log[i].q, q);
    }
  }

  lemma LookOwns(w: World, p: nat, q: Request)
    requires CallsOwn(w) && OneOwner(w, q)
    ensures CallsOwn(Step(w, Look(p, q)))
  {
    hide Found;
  }

  lemma LookKeepsInv(w: World, p: nat, q: Request)
    requires Inv(w) && OneOwner(w, q)
    ensures Inv(Step(w, Look(p, q)))
  {
    hide Quiet, Paid, InTable, Found;
    LookOwns(w, p, q);
    var v := Step(w, Look(p, q));
    if v != w {
      LookFindsPending(w, q);
      forall r | Pending(w, r) ensures Pending(v, r) {
        var p' :| p' in w.calls && w.calls[p'].Unrecorded? && SameKey(r, w.calls[p'].q);
        assert v.calls[p'] == w.calls[p'];
      }
      hide Pending, OneOwner, CallsOwn;
    }
  }

  lemma PendingSame(w: World, q: Request, r: Request)
    requires Pending(w, q) && SameKey(r, q)
    ensures Pending(w, r)
  {
    var p :| p in w.calls && w.calls[p].Unrecorded? && SameKey(q, w.calls[p].q);
    assert SameKey(r, w.calls[p].q);
  }

  lemma PayKeepsPaidOnce(w: World, p: nat)
    requires Inv(w) && Undisturbed(w, Pay(p)) && p in w.calls && w.calls[p].Looked?
    ensures PaidOnce(Step(w, Pay(p)).log)
  {
    var q := w.calls[p].q;
    var v := Step(w, Pay(p));
    if Keyed(q) {
      assert !Pending(w, q);
      assert !Paid(w.log, |w.log|, q);
    }
    assert forall i :: 0 <= i < |w.log| && w.log[i].Credits? ==> !SameKey(q, w.log[i].q);
    assert forall i :: 0 <= i < |w.log| ==> v.log[i] == w.log[i];
    assert forall r: Request :: SameKey(r, q) <==> SameKey(q, r);
  }

  lemma PayKeepsPending(w: World, p: nat)
    requires p in w.calls && w.calls[p].Looked?
    ensures forall r :: Pending(w, r) ==> Pending(Step(w, Pay(p)), r)
    ensures Keyed(w.calls[p].q) ==> Pending(Step(w, Pay(p)), w.calls[p].q)
  {
    var q := w.calls[p].q;
    var v := Step(w, Pay(p));
    forall r | Pending(w, r) ensures Pending(v, r) {
      var p' :| p' in w.calls && w.calls[p'].Unrecorded? && SameKey(r, w.calls[p'].q);
      assert v.calls[p'] == w.calls[p'];
    }
    if Keyed(q) { assert v.calls[p] == Unrecorded(q); }
  }

  lemma PaySettles(w: World, p: nat)
    requires Inv(w) && p in w.calls && w.calls[p].Looked?
    ensures Settled(Step(w, Pay(p))) && CallsOwn(Step(w, Pay(p)))
  {
    var v := Step(w, Pay(p));
    PayKeepsPending(w, p);
    assert forall i :: 0 <= i < |w.log| ==> v.log[i] == w.log[i];
    assert forall r :: InTable(v.s, r) == InTable(w.s, r);
    hide Pending, InTable;
  }

  lemma PayLooksRight(w: World, p: nat)
    requires Inv(w) && p in w.calls && w.calls[p].Looked?
    ensures LookedRight(Step(w, Pay(p)))
  {
    hide Quiet, Paid, Settled, CallsOwn;
    var q := w.calls[p].q;
    var v := Step(w, Pay(p));
    PayKeepsPending(w, p);
    forall r ensures Paid(v.log, |v.log|, r) <==> Paid(w.log, |w.log|, r) || SameKey(r, q) { PaidSnoc(w.log, Credits(q), r); }
    forall r, at: nat | at <= |w.log| ensures Quiet(v.log, at, r) <==> Quiet(w.log, at, r) && !SameKey(r, q) {
      PaidSnoc(w.log, Credits(q), r);
    }
    hide Pending;
  }

  lemma RecordSettles(w: World, p: nat)
    requires Inv(w) && p in w.calls && w.calls[p].Unrecorded?
    ensures Settled(Step(w, Record(p)))
  {
    var q := w.calls[p].q;
    var v := Step(w, Record(p));
    var n := |w.log|;
    assert v.log[n] == Records(q) && forall i :: 0 <= i < n ==> v.log[i] == w.log[i];
    KeyIsOurs(w, p);
    forall i | 0 <= i < n && w.log[i].Credits? && Keyed(w.log[i].q)
      ensures InTable(v.s, w.log[i].q) || Pending(v, w.log[i].q)
    {
      var r := w.log[i].q;
      if !SameKey(q, r) && Pending(w, r) {
        var p' :| p' in w.calls && w.calls[p'].Unrecorded? && SameKey(r, w.calls[p'].q);
        assert v.calls[p'] == w.calls[p'];
      }
    }
  }

  /** Once a call has paid, its key is free or its user's. */
  lemma KeyIsOurs(w: World, p: nat)
    requires Inv(w) && p in w.calls && Keyed(w.calls[p].q)
    ensures var q := w.calls[p].q;
      q.key.value in w.s.keys ==> w.s.keys[q.key.value].user == q.user
  {
    var q := w.calls[p].q;
    if q.key.value in w.s.keys {
      var i :| 0 <= i < |w.log| && w.log[i].q.key == Some(q.key.value) && w.log[i].q.user == w.s.keys[q.key.value].user;
      assert SameKey(q, w.log[i].q);
    }
  }

  lemma RecordKeepsRest(w: World, p: nat)
    requires Inv(w) && p in w.calls && w.calls[p].Unrecorded?
    ensures var v := Step(w, Record(p)); LookedRight(v) && PaidOnce(v.log) && CallsOwn(v)
  {
    hide Quiet, Paid, Settled;
    var q := w.calls[p].q;
    var v := Step(w, Record(p));
    assert forall i :: 0 <= i < |w.log| ==> v.log[i] == w.log[i];
    forall r | Pending(w, r) && !SameKey(r, q) ensures Pending(v, r) {
      var p' :| p' in w.calls && w.calls[p'].Unrecorded? && SameKey(r, w.calls[p'].q);
      assert v.calls[p'] == w.calls[p'];
    }
    forall r ensures Paid(v.log, |v.log|, r) <==> Paid(w.log, |w.log|, r) { PaidSnoc(w.log, Records(q), r); }
    forall r, at: nat | at <= |w.log| ensures Quiet(v.log, at, r) <==> Quiet(w.log, at, r) && !SameKey(r, q) {
      PaidSnoc(w.log, Records(q), r);
    }
    hide Pending;
  }

  lemma FailKeepsInv(w: World, p: nat)
    requires Inv(w) && Undisturbed(w, Fail(p))
    ensures Inv(Step(w, Fail(p)))
  {
    hide Quiet, Paid, InTable;
    var v := Step(w, Fail(p));
    forall r | Pending(w, r) ensures Pending(v, r) {
      var p' :| p' in w.calls && w.calls[p'].Unrecorded? && SameKey(r, w.calls[p'].q);
      assert v.calls[p'] == w.calls[p'];
    }
    hide Pending;
  }

  lemma StepKeepsInv(w: World, e: Event)
    requires Inv(w) && Undisturbed(w, e)
    ensures Inv(Step(w, e))
  {
    hide Settled, LookedRight, PaidOnce, CallsOwn, OneOwner, Quiet;
    match e
    case Look(p, q) => LookKeepsInv(w, p, q);
    case Pay(p) =>
      if p in w.calls && w.calls[p].Looked? {
        PayKeepsPaidOnce(w, p);
        PaySettles(w, p);
        PayLooksRight(w, p);
      }
    case Record(p) =>
      if p in w.calls && w.calls[p].Unrecorded? {
        RecordSettles(w, p);
        RecordKeepsRest(w, p);
      }
    case Fail(p) => FailKeepsInv(w, p);
  }

  lemma StepPays(w: World, e: Event, user: nat)
    requires user in w.s.balance
    ensures var v := Step(w, e);
      user in v.s.balance && Balance(v.s, user) - Balance(w.s, user) == PaidTo(v.log, user) - PaidTo(w.log, user)
  {
    var v := Step(w, e);
    if v.log != w.log { assert v.log[..|v.log| - 1] == w.log; }
  }

  lemma {:induction false} RunKeepsInv(w: World, es: seq<Event>, user: nat)
    requires Inv(w) && AllUndisturbed(w, es) && user in w.s.balance
    ensures var v := RunCalls(w, es);
      Inv(v) && Balance(v.s, user) - Balance(w.s, user) == PaidTo(v.log, user) - PaidTo(w.log, user)
    decreases |es|
  {
    hide Inv, Undisturbed, Step, PaidTo;
    if es != [] {
      StepKeepsInv(w, es[0]);
      StepPays(w, es[0], user);
      RunKeepsInv(Step(w, es[0]), es[1..], user);
    }
  }

  function Opening(balance: map<nat, int>): World { World(State(balance, map[]), map[], []) }

  lemma OpeningInv(balance: map<nat, int>)
    ensures Inv(Opening(balance))
  {}

  /** Exactly once, over every interleaving in which no other write on a key falls between a
      call's look and its record: a balance grows by the payments to its user, no key is paid
      twice, and each paid key is in the table or about to be. */
  lemma InterleavedExactlyOnce(balance: map<nat, int>, es: seq<Event>, user: nat)
    requires AllUndisturbed(Opening(balance), es) && user in balance
    ensures var w := RunCalls(Opening(balance), es);
      && Balance(w.s, user) == balance[user] + PaidTo(w.log, user)
      && (forall i, j :: 0 <= i < j < |w.log| && w.log[i].Credits? && w.log[j].Credits? ==> !SameKey(w.log[i].q, w.log[j].q))
      && (forall i :: 0 <= i < |w.log| && w.log[i].Credits? && Keyed(w.log[i].q) ==>
            InTable(w.s, w.log[i].q) || Pending(w, w.log[i].q))
  {
    OpeningInv(balance);
    hide RunCalls, AllUndisturbed, Pending, InTable, LookedRight, CallsOwn;
    RunKeepsInv(Opening(balance), es, user);
  }

  lemma Unroll3(w: World, es: seq<Event>)
    requires 3 <= |es|
    ensures RunCalls(w, es) == RunCalls(Step(Step(Step(w, es[0]), es[1]), es[2]), es[3..])
  {
    hide Step;
    assert es[1..][1..] == es[2..] && es[2..][1..] == es[3..];
    assert RunCalls(Step(w, es[0]), es[1..]) == RunCalls(Step(Step(w, es[0]), es[1]), es[2..]);
  }

  /** A keyed call left alone does what the endpoint does. */
  lemma AloneIsCall(s: State, q: Request)
    requires ValidAmount(q) && Keyed(q) && !Found(s, q)
    ensures RunCalls(World(s, map[], []), [Look(0, q), Pay(0), Record(0)])
      == World(Call(s, q, NoFault).0, map[], [Credits(q), Records(q)])
  {
    hide Credit, RecordKey;
    var es := [Look(0, q), Pay(0), Record(0)];
    var w := World(s, map[], []);
    Unroll3(w, es);
    var w2 := Step(Step(w, es[0]), es[1]);
    assert w2 == World(Credit(s, q), map[0 := Unrecorded(q)], [Credits(q)]);
    assert es[3..] == [];
  }

  /** Two copies of a request that both look before either pays, each doing nothing but what
      the code says, credit twice. */
  lemma OverlappingCopies(s: State, q: Request)
    requires ValidAmount(q) && Keyed(q) && q.user in s.balance && !Found(s, q)
    ensures var es := [Look(0, q), Look(1, q), Pay(0), Record(0), Pay(1), Record(1)];
      var w := RunCalls(World(s, map[], []), es);
      w.calls == map[] && Balance(w.s, q.user) == Balance(s, q.user) + 2 * q.cents
  {
    var es := [Look(0, q), Look(1, q), Pay(0), Record(0), Pay(1), Record(1)];
    var w := World(s, map[], []);
    Unroll3(w, es);
    OverlapStarts(s, q);
    var w3 := Step(Step(Step(w, es[0]), es[1]), es[2]);
    Unroll3(w3, es[3..]);
    OverlapEnds(w3, q);
    assert es[3..][3..] == [];
  }

  lemma OverlapStarts(s: State, q: Request)
    requires ValidAmount(q) && Keyed(q) && !Found(s, q)
    ensures Step(Step(Step(World(s, map[], []), Look(0, q)), Look(1, q)), Pay(0))
      == World(Credit(s, q), map[0 := Unrecorded(q), 1 := Looked(q, 0)], [Credits(q)])
  {
    hide Credit;
    assert Step(Step(World(s, map[], []), Look(0, q)), Look(1, q)).calls == map[0 := Looked(q, 0), 1 := Looked(q, 0)];
  }

  lemma OverlapEnds(w: World, q: Request)
    requires Keyed(q) && w.calls == map[0 := Unrecorded(q), 1 := Looked(q, 0)] && q.user in w.s.balance
    ensures var v := Step(Step(Step(w, Record(0)), Pay(1)), Record(1));
      v.calls == map[] && Balance(v.s, q.user) == Balance(w.s, q.user) + q.cents
  {
    var w1 := Step(w, Record(0));
    assert w1.calls == map[1 := Looked(q, 0)] && w1.s.balance == w.s.balance;
    var w2 := Step(w1, Pay(1));
    assert w2.calls == map[1 := Unrecorded(q)];
  }
}
