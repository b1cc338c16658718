/** Check-then-act admission: a request is let in while fewer than `limit` units are
    counted, and is counted only later.  Used by the Docker saturation guard and by the
    AI quota. */
module Admission {
  /** Units counted, and requests let in that are not counted yet. */
  datatype Gate = Gate(counted: nat, pending: nat)

  datatype Event =
    | Admit              // the check, and the request goes on if it passes
    | Count              // a pending request is counted
    | Drop               // a pending request ends without being counted
    | Release(n: nat)    // n units leave the count: operations end, a window rolls over
    | Skip

  function Step(g: Gate, limit: int, e: Event): Gate {
    match e
    case Admit => if g.counted < limit then g.(pending := g.pending + 1) else g
    case Count => if 0 < g.pending then Gate(g.counted + 1, g.pending - 1) else g
    case Drop => if 0 < g.pending then g.(pending := g.pending - 1) else g
    case Release(n) => g.(counted := if n <= g.counted then g.counted - n else 0)
    case Skip => g
  }

  function Run(g: Gate, limit: int, es: seq<Event>): Gate
    decreases |es|
  {
    if es == [] then g else Run(Step(g, limit, es[0]), limit, es[1..])
  }

  /** Never more than p requests pending at once. */
  predicate Narrow(g: Gate, limit: int, es: seq<Event>, p: nat)
    decreases |es|
  {
    g.pending <= p && (es == [] || Narrow(Step(g, limit, es[0]), limit, es[1..], p))
  }

  const CLOSED := Gate(0, 0)

  predicate Within(g: Gate, limit: int, p: nat) {
    g.counted + g.pending <= if limit <= 0 then 0 else limit - 1 + p
  }

  lemma {:induction false} RunWithin(g: Gate, limit: int, es: seq<Event>, p: nat)
    requires Within(g, limit, p) && Narrow(g, limit, es, p)
    ensures Within(Run(g, limit, es), limit, p)
    decreases |es|
  {
    if es != [] {
      var h := Step(g, limit, es[0]);
      assert h.pending <= p;
      RunWithin(h, limit, es[1..], p);
    }
  }

  /** Any interleaving: counted plus pending stays within limit - 1 + p. */
  lemma AdmissionBound(limit: int, es: seq<Event>, p: nat)
    requires Narrow(CLOSED, limit, es, p)
    ensures Within(Run(CLOSED, limit, es), limit, p)
  {
    RunWithin(CLOSED, limit, es, p);
  }

  function Fill(n: nat): seq<Event> { if n == 0 then [] else [Admit, Count] + Fill(n - 1) }

  function Admits(n: nat): seq<Event> { if n == 0 then [] else [Admit] + Admits(n - 1) }

  lemma {:induction false} RunAdmits(g: Gate, limit: int, n: nat, p: nat)
    requires g.counted < limit && g.pending + n <= p
    ensures Run(g, limit, Admits(n)) == g.(pending := g.pending + n)
    ensures Narrow(g, limit, Admits(n), p)
    decreases n
  {
    if n > 0 {
      assert Admits(n)[1..] == Admits(n - 1);
      RunAdmits(Step(g, limit, Admit), limit, n - 1, p);
    }
  }

  lemma {:induction false} RunFill(c: nat, limit: int, n: nat, es: seq<Event>, p: nat)
    requires c + n < limit && 0 < p
    ensures Run(Gate(c, 0), limit, Fill(n) + es) == Run(Gate(c + n, 0), limit, es)
    ensures Narrow(Gate(c + n, 0), limit, es, p) ==> Narrow(Gate(c, 0), limit, Fill(n) + es, p)
    decreases n
  {
    var fs := Fill(n) + es;
    if n == 0 {
      assert fs == es;
    } else {
      RunFill(c + 1, limit, n - 1, es, p);
      assert fs[0] == Admit && fs[1] == Count;
      var gs := fs[1..];
      assert gs[0] == Count && gs[1..] == Fill(n - 1) + es;
      var g1 := Step(Gate(c, 0), limit, Admit);
      assert Step(g1, limit, Count) == Gate(c + 1, 0);
      assert Run(g1, limit, gs) == Run(Gate(c + 1, 0), limit, gs[1..]);
    }
  }

  /** The bound is exact: for every positive limit and p some run reaches it. */
  lemma BoundIsReached(limit: int, p: nat)
    requires 0 < limit && 0 < p
    ensures var es := Fill(limit - 1) + Admits(p);
      && Narrow(CLOSED, limit, es, p)
      && var g := Run(CLOSED, limit, es); g.counted + g.pending == limit - 1 + p
  {
    RunAdmits(Gate(limit - 1, 0), limit, p, p);
    RunFill(0, limit, limit - 1, Admits(p), p);
  }
}
