/** Charging for autoscale: apply_autoscale and revert_scaling of
    app/services/orchestrator.py.  Money is in whole cents, containers and users are
    numbers.  A conditional subtract happens or does not; an addition happens or throws
    without effect. */
module Autoscale {
  import opened Prelude

  const COST := 5

  /** A threading.Timer; it stays alive until its revert has run to the end. */
  datatype Timer = Timer(name: nat, user: nat, alive: bool)

  /** `active` is _active_timers: container to timer.  `boosted` are the containers that
      run with autoscale limits. */
  datatype State = State(balance: map<nat, int>, timers: seq<Timer>, active: map<nat, nat>, boosted: set<nat>)

  datatype Docker = Ok | NonZero | Raised(applied: bool)

  /** What goes wrong in one call.  `refundThrows` is the refund after a nonzero exit code,
      `handlerThrows` the one in the except handler. */
  datatype Faults = Faults(deductThrows: bool, docker: Docker, logThrows: bool, startThrows: bool,
                           refundThrows: bool, handlerThrows: bool)

  datatype Call = Call(name: nat, user: nat, paid: bool, faults: Faults)

  /** Escaped: an exception leaves the call before anything was charged.  LostRefund: one
      leaves it with the charge taken and not given back. */
  datatype Result = Blocked | StillScaled | Simulated | Insufficient | Refunded | Registered | Escaped | LostRefund

  predicate TimerAlive(s: State, name: nat) {
    name in s.active && s.active[name] < |s.timers| && s.timers[s.active[name]].alive
  }

  function Balance(s: State, user: nat): int { if user in s.balance then s.balance[user] else 0 }

  function AddTo(s: State, user: nat, cents: int): State {
    if user in s.balance then s.(balance := s.balance[user := s.balance[user] + cents]) else s
  }

  predicate Covers(s: State, user: nat, cents: int) { user in s.balance && cents <= s.balance[user] }

  /** The container ends up with autoscale limits. */
  predicate Boosts(f: Faults) { f.docker.Ok? || (f.docker.Raised? && f.docker.applied) }

  predicate Registers(f: Faults) { f.docker.Ok? && !f.logThrows && !f.startThrows }

  /** The last refund attempted fails: after a nonzero exit code there are two. */
  predicate LosesRefund(f: Faults) {
    f.handlerThrows && (f.docker.NonZero? ==> f.refundThrows)
  }

  function Scheduled(s: State, c: Call): State {
    s.(timers := s.timers + [Timer(c.name, c.user, true)], active := s.active[c.name := |s.timers|])
  }

  function Apply(s: State, dry: bool, c: Call): (State, Result) {
    var f := c.faults;
    if !c.paid then (s, Blocked)
    else if TimerAlive(s, c.name) then (s, StillScaled)
    else if dry then (s, if f.logThrows then Escaped else Simulated)
    else if f.deductThrows then (s, Escaped)
    else if !Covers(s, c.user, COST) then (s, Insufficient)
    else
      var s1 := if Boosts(f) then s.(boosted := s.boosted + {c.name}) else s;
      if Registers(f) then (Scheduled(AddTo(s1, c.user, -COST), c), Registered)
      else if LosesRefund(f) then (AddTo(s1, c.user, -COST), LostRefund)
      else (s1, Refunded)
  }

  /** Timer i fires; `docker` is the outcome of putting the plan's limits back. */
  function Revert(s: State, dry: bool, i: nat, docker: Docker): State {
    if i < |s.timers| && s.timers[i].alive then
      var t := s.timers[i];
      var s1 := s.(timers := s.timers[i := t.(alive := false)]);
      if dry then s1
      else
        var s2 := if Boosted(docker) then s1 else s1.(boosted := s1.boosted - {t.name});
        s2.(active := s2.active - {t.name})
    else s
  }

  /** The autoscale limits survive the revert. */
  predicate Boosted(docker: Docker) { docker.NonZero? || (docker.Raised? && !docker.applied) }

  lemma RefundRestores(s: State, user: nat, cents: int)
    requires user in s.balance
    ensures AddTo(AddTo(s, user, -cents), user, cents) == s
  {
    assert s.balance[user := s.balance[user] - cents][user := s.balance[user]] == s.balance;
  }

  lemma AddToFrame(s: State, user: nat, cents: int, boosted: set<nat>)
    ensures AddTo(s, user, cents).(boosted := boosted) == AddTo(s.(boosted := boosted), user, cents)
    ensures AddTo(s, user, cents).boosted == s.boosted
  {}

  class Orchestrator {
    const dryRun: bool
    var balance: map<nat, int>
    var timers: seq<Timer>
    var activeTimers: map<nat, nat>
    var boosted: set<nat>

    function Snapshot(): State
      reads this
    {
      State(balance, timers, activeTimers, boosted)
    }

    constructor (dryRun: bool, balance: map<nat, int>)
      ensures this.dryRun == dryRun && Snapshot() == State(balance, [], map[], {})
    {
      this.dryRun := dryRun;
      this.balance := balance;
      timers, activeTimers, boosted := [], map[], {};
    }

    method DeductBalanceIfSufficient(user: nat, cents: nat) returns (taken: bool)
      modifies this`balance
      ensures taken <==> Covers(old(Snapshot()), user, cents)
      ensures Snapshot() == if taken then AddTo(old(Snapshot()), user, 0 - cents as int) else old(Snapshot())
    {
      taken := user in balance && balance[user] >= cents;
      if taken { balance := balance[user := balance[user] - cents]; }
    }

    method UpdateBalance(user: nat, cents: int, throws: bool)
      modifies this`balance
      ensures Snapshot() == if throws then old(Snapshot()) else AddTo(old(Snapshot()), user, cents)
    {
      if !throws && user in balance { balance := balance[user := balance[user] + cents]; }
    }

    /** The try block; None when an exception leaves it. */
    method UpdateAndSchedule(c: Call) returns (r: Option<Result>)
      modifies this
      ensures var s := old(Snapshot());
        var s1 := if Boosts(c.faults) then s.(boosted := s.boosted + {c.name}) else s;
        if Registers(c.faults) then r == Some(Registered) && Snapshot() == Scheduled(s1, c)
        else if c.faults.docker.NonZero? && !c.faults.refundThrows then
          r == Some(Refunded) && Snapshot() == AddTo(s1, c.user, COST)
        else r == None && Snapshot() == s1
    {
      var f := c.faults;
      if f.docker.Raised? {
        if f.docker.applied { boosted := boosted + {c.name}; }
        return None;
      }
      if f.docker.NonZero? {
        UpdateBalance(c.user, COST, f.refundThrows);
        return if f.refundThrows then None else Some(Refunded);
      }
      boosted := boosted + {c.name};
      if f.logThrows || f.startThrows { return None; }
      timers := timers + [Timer(c.name, c.user, true)];
      activeTimers := activeTimers[c.name := |timers| - 1];
      return Some(Registered);
    }

    method ApplyAutoscale(c: Call) returns (r: Result)
      modifies this
      ensures (Snapshot(), r) == Apply(old(Snapshot()), dryRun, c)
    {
      var f := c.faults;
      if !c.paid { return Blocked; }
      if c.name in activeTimers && activeTimers[c.name] < |timers| && timers[activeTimers[c.name]].alive {
        return StillScaled;
      }
      if dryRun { return if f.logThrows then Escaped else Simulated; }
      if f.deductThrows { return Escaped; }
      var taken := DeductBalanceIfSufficient(c.user, COST);
      if !taken { return Insufficient; }
      ghost var s := old(Snapshot());
      RefundRestores(s, c.user, COST);
      RefundRestores(s.(boosted := s.boosted + {c.name}), c.user, COST);
      AddToFrame(s, c.user, -COST, s.boosted + {c.name});
      AddToFrame(s.(boosted := s.boosted + {c.name}), c.user, -COST, s.boosted);
      var o := UpdateAndSchedule(c);
      hide AddTo;
      if o.Some? { return o.value; }
      UpdateBalance(c.user, COST, f.handlerThrows);
      return if f.handlerThrows then LostRefund else Refunded;
    }

    /** Runs in the timer's own thread. */
    method RevertScaling(i: nat, docker: Docker)
      requires i < |timers| && timers[i].alive
      modifies this
      ensures Snapshot() == Revert(old(Snapshot()), dryRun, i, docker)
    {
      var t := timers[i];
      if !dryRun {
        if docker.Ok? || (docker.Raised? && docker.applied) { boosted := boosted - {t.name}; }
        activeTimers := activeTimers - {t.name};
      }
      timers := timers[i := t.(alive := false)];
    }
  }

  /** The call gets as far as charging the user: what its caller can look up before it. */
  predicate Charges(s: State, dry: bool, c: Call) {
    c.paid && !TimerAlive(s, c.name) && !dry && !c.faults.deductThrows && Covers(s, c.user, COST)
  }

  /** The charge stays although no timer is started: the update or what follows it fails, and
      so does the last attempt to refund. */
  predicate ChargedForNothing(s: State, dry: bool, c: Call) {
    Charges(s, dry, c) && !Registers(c.faults) && LosesRefund(c.faults)
  }

  /** What a call costs a user, from its inputs. */
  function Price(s: State, dry: bool, c: Call, user: nat): int {
    if user == c.user && Charges(s, dry, c) && (Registers(c.faults) || LosesRefund(c.faults)) then COST else 0
  }

  /** For every call and every combination of faults: a timer is registered exactly when the
      call charges and nothing fails; a user pays the price and nothing else, and nobody else
      pays; and "5 cents if and only if a timer" holds for the call exactly when it does not
      charge for nothing. */
  lemma CallConserves(s: State, dry: bool, c: Call, user: nat)
    ensures var (v, r) := Apply(s, dry, c);
      && Balance(v, user) == Balance(s, user) - Price(s, dry, c, user)
      && (|v.timers| == |s.timers| + 1 <==> Charges(s, dry, c) && Registers(c.faults))
      && (!(Charges(s, dry, c) && Registers(c.faults)) ==> v.timers == s.timers && v.active == s.active)
      && (r.LostRefund? <==> ChargedForNothing(s, dry, c))
      && ((Balance(v, c.user) == Balance(s, c.user) - COST <==> |v.timers| == |s.timers| + 1)
            <==> !ChargedForNothing(s, dry, c))
  {}

  /** What a call does, outright: who is let through, and then the limits, the timer and the
      charge, each by its own condition. */
  lemma CallExactly(s: State, dry: bool, c: Call)
    ensures var (v, r) := Apply(s, dry, c);
      var f := c.faults;
      var scaled := c.name in s.active && s.active[c.name] < |s.timers| && s.timers[s.active[c.name]].alive;
      var enough := c.user in s.balance && 5 <= s.balance[c.user];
      var charged := c.paid && !scaled && !dry && !f.deductThrows && enough;
      var registered := charged && f.docker == Ok && !f.logThrows && !f.startThrows;
      var lost := charged && !registered && f.handlerThrows && (f.docker != NonZero || f.refundThrows);
      && (r == Blocked <==> !c.paid)
      && (r == StillScaled <==> c.paid && scaled)
      && (r == Simulated <==> c.paid && !scaled && dry && !f.logThrows)
      && (r == Insufficient <==> c.paid && !scaled && !dry && !f.deductThrows && !enough)
      && (r == Registered <==> registered) && (r == LostRefund <==> lost)
      && (r == Refunded <==> charged && !registered && !lost)
      && v.boosted == s.boosted + (if charged && f.docker in {Ok, Raised(true)} then {c.name} else {})
      && v.timers == s.timers + (if registered then [Timer(c.name, c.user, true)] else [])
      && v.active == (if registered then s.active[c.name := |s.timers|] else s.active)
      && v.balance == if registered || lost then s.balance[c.user := s.balance[c.user] - 5] else s.balance
  {}

  /** What a timer does when it fires: the plan's limits are back unless docker refused or
      raised without effect; nothing else about other containers changes, and the timer is
      used up. */
  lemma RevertExactly(s: State, i: nat, docker: Docker, name: nat)
    requires i < |s.timers| && s.timers[i].alive
    ensures var v := Revert(s, false, i, docker);
      var fired := s.timers[i].name;
      && (name == fired ==> (name in v.boosted <==> name in s.boosted && (docker == NonZero || docker == Raised(false))))
      && (name != fired ==> (name in v.boosted <==> name in s.boosted))
      && v.timers == s.timers[i := s.timers[i].(alive := false)]
      && v.active == s.active - {fired} && v.balance == s.balance
      && Revert(v, false, i, docker) == v
      && Revert(s, true, i, docker) == s.(timers := v.timers)
  {}

  /** Docker answers with an error and both refunds throw: 5 cents for nothing. */
  lemma LostRefundHappens(name: nat, user: nat)
    ensures var s := State(map[user := 100], [], map[], {});
      var (v, r) := Apply(s, false, Call(name, user, true, Faults(false, NonZero, false, false, true, true)));
      ChargedForNothing(s, false, Call(name, user, true, Faults(false, NonZero, false, false, true, true)))
      && v == s.(balance := map[user := 95]) && r.LostRefund?
  {}

  // ------------------------------------------------------------------------ runs

  datatype Event =
    | ApplyEvent(c: Call)
    | Fire(i: nat, docker: Docker)
    | TopUp(user: nat, cents: nat)
    | Spend(user: nat, cents: nat)       // any other conditional subtract
    | Restart                            // the orchestrator process is replaced

  /** `stray`: containers whose autoscale limits were left without a timer, because of a
      throw between update and registration, a failed revert or a restart. */
  datatype World = World(s: State, stray: set<nat>)

  function Stop(s: State): State {
    s.(timers := seq(|s.timers|, i requires 0 <= i < |s.timers| => s.timers[i].(alive := false)), active := map[])
  }

  function Step(w: World, dry: bool, e: Event): World {
    match e
    case ApplyEvent(c) =>
      var (v, r) := Apply(w.s, dry, c);
      World(v, if r.Registered? then w.stray - {c.name}
               else if (r.Refunded? || r.LostRefund?) && (c.faults.docker == Ok || c.faults.docker == Raised(true))
               then w.stray + {c.name}
               else w.stray)
    case Fire(i, docker) =>
      World(Revert(w.s, dry, i, docker),
            if i < |w.s.timers| && w.s.timers[i].alive && (docker == NonZero || docker == Raised(false))
            then w.stray + {w.s.timers[i].name} else w.stray)
    case TopUp(user, cents) => w.(s := AddTo(w.s, user, cents))
    case Spend(user, cents) => if Covers(w.s, user, cents) then w.(s := AddTo(w.s, user, 0 - cents as int)) else w
    case Restart => World(Stop(w.s), w.stray + w.s.boosted)
  }

  function Run(w: World, dry: bool, es: seq<Event>): World
    decreases |es|
  {
    if es == [] then w else Run(Step(w, dry, es[0]), dry, es[1..])
  }

  /** What an event should do to a user's balance. */
  function Owed(w: World, dry: bool, e: Event, user: nat): int {
    match e
    case ApplyEvent(c) => 0 - Price(w.s, dry, c, user)
    case TopUp(u, cents) => if u == user && u in w.s.balance then cents else 0
    case Spend(u, cents) => if u == user && Covers(w.s, u, cents) then 0 - cents as int else 0
    case _ => 0
  }

  function OwedOver(w: World, dry: bool, es: seq<Event>, user: nat): int
    decreases |es|
  {
    if es == [] then 0 else Owed(w, dry, es[0], user) + OwedOver(Step(w, dry, es[0]), dry, es[1..], user)
  }

  /** Ledger: over every run a balance is the opening balance plus top-ups, minus other
      spending, minus 5 cents for each call that charges and either starts a timer or loses
      its refund. */
  lemma {:induction false} LedgerBalances(w: World, dry: bool, es: seq<Event>, user: nat)
    ensures Balance(Run(w, dry, es).s, user) == Balance(w.s, user) + OwedOver(w, dry, es, user)
    decreases |es|
  {
    if es != [] {
      assert Balance(Step(w, dry, es[0]).s, user) == Balance(w.s, user) + Owed(w, dry, es[0], user);
      LedgerBalances(Step(w, dry, es[0]), dry, es[1..], user);
    }
  }

  ghost predicate Solvent(s: State) { forall u :: u in s.balance ==> 0 <= s.balance[u] }

  /** _active_timers knows every live timer, under its own container. */
  ghost predicate Tracked(s: State) {
    forall i :: 0 <= i < |s.timers| && s.timers[i].alive ==>
      s.timers[i].name in s.active && s.active[s.timers[i].name] == i
  }

  ghost predicate HasTimer(s: State, name: nat) {
    exists i :: 0 <= i < |s.timers| && s.timers[i].alive && s.timers[i].name == name
  }

  /** The containers with autoscale limits are those with a live timer and the stray ones,
      and none is both. */
  ghost predicate Watched(w: World) {
    && (forall n :: n in w.s.boosted <==> n in w.stray || HasTimer(w.s, n))
    && (forall n :: n in w.stray ==> !HasTimer(w.s, n))
  }

  ghost predicate Inv(w: World) { Solvent(w.s) && Tracked(w.s) && Watched(w) }

  lemma ApplyKeepsInv(w: World, dry: bool, c: Call)
    requires Inv(w)
    ensures Inv(Step(w, dry, ApplyEvent(c)))
  {
    var v := Step(w, dry, ApplyEvent(c));
    var (s, r) := Apply(w.s, dry, c);
    if r.Registered? {
      assert s.timers[|w.s.timers|] == Timer(c.name, c.user, true);
      assert forall i :: 0 <= i < |w.s.timers| && w.s.timers[i].alive ==> w.s.timers[i].name != c.name;
    }
    forall n | n in s.boosted ensures n in v.stray || HasTimer(s, n) {
      if n != c.name && HasTimer(w.s, n) {
        var i :| 0 <= i < |w.s.timers| && w.s.timers[i].alive && w.s.timers[i].name == n;
        assert s.timers[i] == w.s.timers[i];
      }
    }
  }

  lemma FireKeepsInv(w: World, dry: bool, i: nat, docker: Docker)
    requires Inv(w) && (dry ==> w.s.timers == [])
    ensures Inv(Step(w, dry, Fire(i, docker)))
  {
    var v := Step(w, dry, Fire(i, docker));
    if i < |w.s.timers| && w.s.timers[i].alive {
      forall n | n in v.s.boosted ensures n in v.stray || HasTimer(v.s, n) {
        if n !in v.stray {
          var j :| 0 <= j < |w.s.timers| && w.s.timers[j].alive && w.s.timers[j].name == n;
          assert v.s.timers[j] == w.s.timers[j];
        }
      }
    }
  }

  lemma OtherKeepsInv(w: World, dry: bool, e: Event)
    requires Inv(w) && (e.TopUp? || e.Spend? || e.Restart?)
    ensures Inv(Step(w, dry, e))
  {
    var v := Step(w, dry, e);
    if !e.Restart? {
      forall n | n in v.s.boosted ensures n in v.stray || HasTimer(v.s, n) {
        assert HasTimer(v.s, n) <==> HasTimer(w.s, n);
      }
    }
  }

  lemma {:induction false} RunKeepsInv(w: World, dry: bool, es: seq<Event>)
    requires Inv(w) && (dry ==> w.s.timers == [])
    ensures Inv(Run(w, dry, es))
    decreases |es|
  {
    hide Inv;
    if es != [] {
      match es[0] {
        case ApplyEvent(c) => ApplyKeepsInv(w, dry, c);
        case Fire(i, docker) => FireKeepsInv(w, dry, i, docker);
        case _ => OtherKeepsInv(w, dry, es[0]);
      }
      RunKeepsInv(Step(w, dry, es[0]), dry, es[1..]);
    }
  }

  function Opening(balance: map<nat, int>): World { World(State(balance, [], map[], {}), {}) }

  /** From nonnegative balances, over every run with every fault: no balance goes negative,
      no container has two live timers, and the containers with autoscale limits are exactly those
      with a live timer and the stray ones, none of them both. */
  lemma AutoscaleSafety(balance: map<nat, int>, dry: bool, es: seq<Event>)
    requires forall u :: u in balance ==> 0 <= balance[u]
    ensures var w := Run(Opening(balance), dry, es);
      && (forall u :: 0 <= Balance(w.s, u))
      && (forall i, j :: 0 <= i < |w.s.timers| && 0 <= j < |w.s.timers| && w.s.timers[i].alive && w.s.timers[j].alive ==>
            w.s.timers[i].name == w.s.timers[j].name ==> i == j)
      && (forall n :: n in w.s.boosted <==> HasTimer(w.s, n) || n in w.stray)
      && (forall n :: !(HasTimer(w.s, n) && n in w.stray))
  {
    hide Run;
    RunKeepsInv(Opening(balance), dry, es);
  }

  /** After any run, a call that registers raises its container's limits under a timer, and
      when docker obeys that timer nothing of it is left: the limits are those of the plan,
      they are not stray, and the container can be scaled again. */
  lemma ScaledAndBack(balance: map<nat, int>, es: seq<Event>, c: Call)
    requires forall u :: u in balance ==> 0 <= balance[u]
    requires Apply(Run(Opening(balance), false, es).s, false, c).1.Registered?
    ensures var w := Run(Opening(balance), false, es);
      var up := Step(w, false, ApplyEvent(c));
      var i := |w.s.timers|;
      var down := Step(up, false, Fire(i, Ok));
      && c.name in up.s.boosted && c.name !in up.stray && HasTimer(up.s, c.name)
      && c.name !in down.s.boosted && c.name !in down.stray && !HasTimer(down.s, c.name) && c.name !in down.s.active
      && (forall n :: n != c.name ==> (n in down.s.boosted <==> n in w.s.boosted) && (n in down.stray <==> n in w.stray))
      && down.s.balance == up.s.balance
  {
    hide Run;
    var w := Run(Opening(balance), false, es);
    RunKeepsInv(Opening(balance), false, es);
    var up := Step(w, false, ApplyEvent(c));
    ApplyKeepsInv(w, false, c);
    assert up.s.timers[|w.s.timers|] == Timer(c.name, c.user, true);
    FireKeepsInv(up, false, |w.s.timers|, Ok);
  }

  /** A log write that throws after the update leaves the limits raised, the money refunded
      and no timer: nothing will ever take the limits back. */
  lemma StrayLimits(s: State, c: Call)
    requires c.paid && !TimerAlive(s, c.name) && Covers(s, c.user, COST)
    requires c.faults == Faults(false, Ok, true, false, false, false)
    ensures var (v, r) := Apply(s, false, c);
      r.Refunded? && v.balance == s.balance && c.name in v.boosted && !TimerAlive(v, c.name)
  {}
}
