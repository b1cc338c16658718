/** The key of the AI response cache: _build_cache_key in app/core/ai_cache.py, and the
    decision that app/core/ai_orchestrator.py hands to it.

    Codes of causes and actions are numbers in the order Python sorts the strings; the
    JSON text and its SHA-256 are taken to be injective. */
module CacheKey {
  import opened Prelude

  /** `debugHash` is the `_debug_hash` entry the orchestrator adds to tell errors apart. */
  datatype Decision = Decision(status: Option<string>, projectType: Option<string>,
                               causes: seq<int>, actions: seq<int>, debugHash: Option<string>)

  datatype Key = Key(tenant: string, status: Option<string>, projectType: Option<string>,
                     causes: seq<int>, actions: seq<int>)

  function Insert(x: int, s: seq<int>): seq<int> {
    if s == [] || x <= s[0] then [x] + s else [s[0]] + Insert(x, s[1..])
  }

  /** sorted(...). */
  function Sort(s: seq<int>): seq<int> { if s == [] then [] else Insert(s[0], Sort(s[1..])) }

  predicate Sorted(s: seq<int>) { forall i, j :: 0 <= i < j < |s| ==> s[i] <= s[j] }

  /** `tenant_id or "default"`. */
  function Tenant(t: Option<string>): string { if t.Some? && t.value != "" then t.value else "default" }

  function BuildKey(d: Decision, tenant: Option<string>): Key {
    Key(Tenant(tenant), d.status, d.projectType, Sort(d.causes), Sort(d.actions))
  }

  lemma {:induction false} InsertKeeps(x: int, s: seq<int>)
    ensures multiset(Insert(x, s)) == multiset{x} + multiset(s)
  {
    if s != [] && s[0] < x {
      InsertKeeps(x, s[1..]);
      assert s == [s[0]] + s[1..];
    }
  }

  lemma InsertAbove(x: int, s: seq<int>, low: int)
    requires low <= x && forall i :: 0 <= i < |s| ==> low <= s[i]
    ensures forall i :: 0 <= i < |Insert(x, s)| ==> low <= Insert(x, s)[i]
  {}

  lemma {:induction false} InsertSorts(x: int, s: seq<int>)
    requires Sorted(s)
    ensures Sorted(Insert(x, s))
  {
    if s != [] && s[0] < x {
      InsertSorts(x, s[1..]);
      InsertAbove(x, s[1..], s[0]);
    }
  }

  lemma {:induction false} SortSorts(s: seq<int>)
    ensures Sorted(Sort(s)) && multiset(Sort(s)) == multiset(s)
  {
    if s != [] {
      SortSorts(s[1..]);
      InsertSorts(s[0], Sort(s[1..]));
      InsertKeeps(s[0], Sort(s[1..]));
      assert s == [s[0]] + s[1..];
    }
  }

  lemma HeadIsLeast(a: seq<int>, b: seq<int>)
    requires a != [] && Sorted(a) && b != [] && multiset(a) == multiset(b)
    ensures a[0] <= b[0]
  {
    assert b[0] in multiset(a);
    var i :| 0 <= i < |a| && a[i] == b[0];
  }

  lemma TailContents(a: seq<int>)
    requires a != []
    ensures multiset(a[1..]) == multiset(a) - multiset{a[0]}
  {
    assert a == [a[0]] + a[1..];
  }

  lemma SameLength(a: seq<int>, b: seq<int>)
    requires multiset(a) == multiset(b)
    ensures |a| == |b|
  {
    assert |a| == |multiset(a)|;
  }

  /** A sorted list is determined by what it contains. */
  lemma {:induction false} SortedUnique(a: seq<int>, b: seq<int>)
    requires Sorted(a) && Sorted(b) && multiset(a) == multiset(b)
    ensures a == b
  {
    SameLength(a, b);
    if a != [] {
      HeadIsLeast(a, b);
      HeadIsLeast(b, a);
      TailContents(a);
      TailContents(b);
      SortedUnique(a[1..], b[1..]);
      assert a == [a[0]] + a[1..] && b == [b[0]] + b[1..];
    }
  }

  /** Two decisions share a cached answer exactly when tenant, status and project type agree
      and the causes and actions are the same up to order.  The debug hash plays no part:
      decisions with different errors share an answer. */
  lemma SameKeyIff(d: Decision, t: Option<string>, e: Decision, u: Option<string>)
    ensures var none := t == None || t.value == "" || t.value == "default";
      BuildKey(d, t) == BuildKey(e, u) <==>
      && (if none then u == None || u.value == "" || u.value == "default" else u == t)
      && d.status == e.status && d.projectType == e.projectType
      && multiset(d.causes) == multiset(e.causes) && multiset(d.actions) == multiset(e.actions)
  {
    SortSorts(d.causes);
    SortSorts(e.causes);
    SortSorts(d.actions);
    SortSorts(e.actions);
    if multiset(d.causes) == multiset(e.causes) { SortedUnique(Sort(d.causes), Sort(e.causes)); }
    if multiset(d.actions) == multiset(e.actions) { SortedUnique(Sort(d.actions), Sort(e.actions)); }
  }

  /** No tenant, an empty tenant and the tenant called "default" are the same tenant. */
  lemma DefaultTenantShared(d: Decision)
    ensures BuildKey(d, None) == BuildKey(d, Some("")) == BuildKey(d, Some("default"))
  {}
}
