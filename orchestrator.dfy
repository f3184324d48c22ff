/**
 One suspend cycle of the whole host: `suspend`, `resume` and
 `system_suspend`. Each phase rebuilds the dependency dict from the store it
 reads, so the store is given once as seen before the host sleeps and once
 as seen after it wakes.
 */
module Orchestrator {
  import opened Common
  import opened XenStore
  import opened GraphBuilder
  import opened Ordering
  import opened Lifecycle

  /** Seconds `resume` waits after each domain. */
  const SettleTime: nat := 3

  /** `for d in order: suspend_domain(d)`: stops at the first domain that raises. */
  function SuspendEach(order: seq<DomId>, probe: Probe): Done
  {
    if order == [] then Done(Pass, [])
    else
      var r := SuspendRun(order[0], DefaultTimeout, probe);
      if r.outcome.Fail? then r
      else
        var rest := SuspendEach(order[1..], probe);
        Done(rest.outcome, r.trace + rest.trace)
  }

  /** `for d in order: resume_domain(d); time.sleep(3)`. */
  function ResumeEach(order: seq<DomId>): seq<Event>
  {
    if order == [] then [] else ResumeRun(order[0]) + [Sleep(SettleTime)] + ResumeEach(order[1..])
  }

  /** `get_suspend_order(build_deps())` on a store, or what either raises. */
  function OrderOf(st: Store): Result<seq<DomId>>
  {
    var g :- Dependencies(st);
    SuspendOrder(g).order
  }

  /** What `suspend()` does on a store. */
  function SuspendPhase(st: Store, probe: Probe): Done
  {
    match OrderOf(st)
    case Err(e) => Done(Fail(e), [])
    case Ok(o) => SuspendEach(o, probe)
  }

  /** What `resume()` does on a store. */
  function ResumePhase(st: Store): Done
  {
    match OrderOf(st)
    case Err(e) => Done(Fail(e), [])
    case Ok(o) => Done(Pass, ResumeEach(Reversed(o)))
  }

  /** What `system_suspend()` does: resume runs only when suspend returned. */
  function Cycle(before: Store, after: Store, probe: Probe): Done
  {
    var s := SuspendPhase(before, probe);
    if s.outcome.Fail? then s
    else
      var r := ResumePhase(after);
      Done(r.outcome, s.trace + r.trace)
  }

  /** `suspend`: build the dict, sort it, suspend the domains in order. */
  method Suspend(st: Store, probe: Probe) returns (out: Outcome, trace: seq<Event>)
    ensures Done(out, trace) == SuspendPhase(st, probe)
  {
    var deps := BuildDeps(st);
    if deps.Err? {
      return Fail(deps.error), [];
    }
    var order, _ := GetSuspendOrder(deps.value);
    if order.Err? {
      return Fail(order.error), [];
    }
    out, trace := SuspendInOrder(order.value, probe);
  }

  /** The loop `for d in order: suspend_domain(d)`, which stops at the first domain that raises. */
  method SuspendInOrder(o: seq<DomId>, probe: Probe) returns (out: Outcome, trace: seq<Event>)
    ensures Done(out, trace) == SuspendEach(o, probe)
  {
    trace := [];
    for i := 0 to |o|
      invariant SuspendEach(o, probe)
                == Done(SuspendEach(o[i..], probe).outcome, trace + SuspendEach(o[i..], probe).trace)
    {
      assert o[i..][0] == o[i] && o[i..][1..] == o[i + 1..];
      var r, t := SuspendDomain(o[i], DefaultTimeout, probe);
      AppendAssoc(trace, t, SuspendEach(o[i + 1..], probe).trace);
      trace := trace + t;
      if r.Fail? {
        return r, trace;
      }
    }
    assert trace + [] == trace;
    out := Pass;
  }

  /** `resume`: rebuild the dict, sort it, wake the domains in reverse order with a settle after each. */
  method Resume(st: Store) returns (out: Outcome, trace: seq<Event>)
    ensures Done(out, trace) == ResumePhase(st)
  {
    var deps := BuildDeps(st);
    if deps.Err? {
      return Fail(deps.error), [];
    }
    var order, _ := GetSuspendOrder(deps.value);
    if order.Err? {
      return Fail(order.error), [];
    }
    var r := Reversed(order.value);
    trace := [];
    for i := 0 to |r|
      invariant ResumeEach(r) == trace + ResumeEach(r[i..])
    {
      assert r[i..][0] == r[i] && r[i..][1..] == r[i + 1..];
      var t := ResumeDomain(r[i]);
      AppendAssoc(trace, t + [Sleep(SettleTime)], ResumeEach(r[i + 1..]));
      AppendAssoc(trace, t, [Sleep(SettleTime)]);
      trace := trace + t + [Sleep(SettleTime)];
    }
    assert trace + [] == trace;
    out := Pass;
  }

  /** `system_suspend`: suspend, and once the host is back, resume. */
  method SystemSuspend(before: Store, after: Store, probe: Probe) returns (out: Outcome, trace: seq<Event>)
    ensures Done(out, trace) == Cycle(before, after, probe)
  {
    out, trace := Suspend(before, probe);
    if out.Fail? {
      return;
    }
    var t;
    out, t := Resume(after);
    trace := trace + t;
  }

  /** The domains of a list other than dom0, in order. */
  function NonZero(r: seq<DomId>): seq<DomId>
  {
    if r == [] then [] else (if r[0] == 0 then [] else [r[0]]) + NonZero(r[1..])
  }

  lemma {:induction false} NonZeroElems(r: seq<DomId>)
    ensures Elems(NonZero(r)) == Elems(r) - {0}
  {
    if r != [] {
      NonZeroElems(r[1..]);
      assert r == [r[0]] + r[1..];
      ElemsAppend([r[0]], r[1..]);
      ElemsAppend(if r[0] == 0 then [] else [r[0]], NonZero(r[1..]));
    } else {
      assert Elems(r) == {};
    }
  }

  /** Dropping dom0 keeps the relative order of the other domains. */
  lemma {:induction false} NonZeroOrder(r: seq<DomId>, i: nat, j: nat) returns (p: nat, q: nat)
    requires i < j < |NonZero(r)|
    ensures p < q < |r| && r[p] == NonZero(r)[i] && r[q] == NonZero(r)[j]
  {
    var head := if r[0] == 0 then [] else [r[0]];
    var tail := NonZero(r[1..]);
    assert NonZero(r) == head + tail;
    if head == [] {
      p, q := NonZeroOrder(r[1..], i, j);
      p, q := p + 1, q + 1;
    } else if i == 0 {
      assert tail[j - 1] in Elems(tail);
      NonZeroElems(r[1..]);
      var k :| 0 <= k < |r[1..]| && r[1..][k] == tail[j - 1];
      p, q := 0, k + 1;
    } else {
      p, q := NonZeroOrder(r[1..], i - 1, j - 1);
      p, q := p + 1, q + 1;
    }
  }

  /**
   `suspend_domain` over a list: the domains whose suspension began are a
   prefix of the list, all of it when it returns, and nothing is woken.
   */
  lemma {:induction false} SuspendEachStarts(o: seq<DomId>, probe: Probe)
    ensures var r := SuspendEach(o, probe); var k := |Started(r.trace)|;
      && k <= |o| && Started(r.trace) == o[..k]
      && Woken(r.trace) == []
      && (r.outcome.Pass? ==> k == |o|)
      && (r.outcome.Fail? ==> 0 < k && r.outcome == SuspendRun(o[k - 1], DefaultTimeout, probe).outcome)
  {
    if o == [] {
      assert Started([]) == [] == o[..0];
    } else {
      var d := SuspendRun(o[0], DefaultTimeout, probe);
      SuspendRunStarts(o[0], DefaultTimeout, probe);
      if d.outcome.Pass? {
        var rest := SuspendEach(o[1..], probe);
        SuspendEachStarts(o[1..], probe);
        StartedAppend(d.trace, rest.trace);
        WokenAppend(d.trace, rest.trace);
        var k := |Started(rest.trace)|;
        assert Started(SuspendEach(o, probe).trace) == [o[0]] + o[1..][..k];
        assert [o[0]] + o[1..][..k] == o[..k + 1];
      } else {
        assert o[..1] == [o[0]];
      }
    }
  }

  /**
   `suspend_domain` over a list returns exactly when every domain's
   suspension returns; otherwise it raises what the last begun domain
   raised, after every domain before it returned.
   */
  lemma {:induction false} SuspendEachOutcome(o: seq<DomId>, probe: Probe)
    ensures var r := SuspendEach(o, probe); var k := |Started(r.trace)|;
      && (r.outcome.Pass? <==> forall i :: 0 <= i < |o| ==> SuspendRun(o[i], DefaultTimeout, probe).outcome.Pass?)
      && (r.outcome.Fail? ==> forall i :: 0 <= i < |o| && i < k - 1 ==> SuspendRun(o[i], DefaultTimeout, probe).outcome.Pass?)
  {
    if o != [] {
      var d := SuspendRun(o[0], DefaultTimeout, probe);
      SuspendRunStarts(o[0], DefaultTimeout, probe);
      if d.outcome.Pass? {
        var rest := SuspendEach(o[1..], probe);
        SuspendEachOutcome(o[1..], probe);
        StartedAppend(d.trace, rest.trace);
        assert |Started(SuspendEach(o, probe).trace)| == 1 + |Started(rest.trace)|;
        assert forall i :: 1 <= i < |o| ==> o[i] == o[1..][i - 1];
      }
    }
  }

  /** `resume_domain` plus the settle over a list: wakes the listed domains other than dom0, in order, each followed by a settle. */
  lemma {:induction false} ResumeEachSpec(r: seq<DomId>)
    ensures var t := ResumeEach(r);
      && Woken(t) == NonZero(r)
      && Started(t) == []
      && (forall i :: 0 <= i < |t| && t[i].Wakeup? ==> i + 1 < |t| && t[i + 1] == Sleep(SettleTime))
  {
    if r != [] {
      var head := ResumeRun(r[0]) + [Sleep(SettleTime)];
      var rest := ResumeEach(r[1..]);
      ResumeEachSpec(r[1..]);
      WokenAppend(head, rest);
      StartedAppend(head, rest);
      assert Woken([Sleep(SettleTime)]) == [] && Started([Sleep(SettleTime)]) == [];
      WokenAppend(ResumeRun(r[0]), [Sleep(SettleTime)]);
      StartedAppend(ResumeRun(r[0]), [Sleep(SettleTime)]);
      var t := ResumeEach(r);
      assert t == head + rest;
      forall i | 0 <= i < |t| && t[i].Wakeup? ensures i + 1 < |t| && t[i + 1] == Sleep(SettleTime) {
        if i >= |head| {
          assert t[i] == rest[i - |head|];
        }
      }
    }
  }

  /**
   Suspending along a safe order: the domains begun are distinct keys of the
   dict, a domain is begun before every domain it depends on, and no
   provider is begun while a dependent has not been; when every suspension
   returns, all of the order was begun.
   */
  lemma SuspendEachSafe(g: Deps, o: seq<DomId>, probe: Probe)
    requires ValidDeps(g) && IsSuspendOrder(g, o)
    ensures var s := Started(SuspendEach(o, probe).trace);
      && NoDups(s) && Elems(s) <= Elems(g.keys)
      && (forall i, j :: 0 <= i < |s| && 0 <= j < |s| && s[j] in g.sets[s[i]] ==> i < j)
      && (forall a, b :: a in g.sets && b in g.sets[a] && b in Elems(s) ==> a in Elems(s))
      && (SuspendEach(o, probe).outcome.Pass? ==> s == o)
  {
    SuspendEachStarts(o, probe);
    var s := Started(SuspendEach(o, probe).trace);
    assert forall i :: 0 <= i < |s| ==> s[i] == o[i];
    assert Elems(s) <= Elems(o) by {
      forall x | x in Elems(s) ensures x in Elems(o) {
        var i :| 0 <= i < |s| && s[i] == x;
        assert o[i] == x;
      }
    }
    forall a, b | a in g.sets && b in g.sets[a] && b in Elems(s) ensures a in Elems(s) {
      var j :| 0 <= j < |s| && s[j] == b;
      assert a in Elems(o);
      var i :| 0 <= i < |o| && o[i] == a;
      assert o[j] == b;
      assert i < j;
      assert s[i] == a;
    }
  }

  /**
   Safety of `suspend()`: when the dict cannot be built or sorted nothing is
   suspended; otherwise the domains it begins to suspend follow the sort
   (`SuspendEachSafe`), and when it returns, every domain was begun, in a
   safe suspend order.
   */
  lemma SuspendPhaseSafe(st: Store, probe: Probe)
    ensures OrderOf(st).Err? ==> SuspendPhase(st, probe).trace == []
    ensures Woken(SuspendPhase(st, probe).trace) == []
    ensures Dependencies(st).Ok? ==>
      var g := Dependencies(st).value; var s := Started(SuspendPhase(st, probe).trace);
      && NoDups(s) && Elems(s) <= Elems(g.keys)
      && (forall i, j :: 0 <= i < |s| && 0 <= j < |s| && s[j] in g.sets[s[i]] ==> i < j)
      && (forall a, b :: a in g.sets && b in g.sets[a] && b in Elems(s) ==> a in Elems(s))
      && (SuspendPhase(st, probe).outcome.Pass? ==> IsSuspendOrder(g, s))
  {
    if OrderOf(st).Ok? {
      var g := Dependencies(st).value;
      var o := OrderOf(st).value;
      SuspendOrderSpec(g);
      SuspendEachStarts(o, probe);
      SuspendEachSafe(g, o, probe);
    } else {
      assert Started([]) == [] && Woken([]) == [];
    }
  }

  /**
   dom0 last: when `suspend()` puts the host to sleep, every domain that
   depends on dom0, directly or through other domains, was begun before it.
   */
  lemma HostSleepsLast(st: Store, probe: Probe, c: seq<DomId>)
    requires Dependencies(st).Ok? && |c| >= 2 && c[|c| - 1] == 0
    requires DependencyChain(Dependencies(st).value, c)
    ensures var s := Started(SuspendPhase(st, probe).trace);
      forall j :: 0 <= j < |s| && s[j] == 0 ==> exists i :: 0 <= i < j && s[i] == c[0]
  {
    var g := Dependencies(st).value;
    var s := Started(SuspendPhase(st, probe).trace);
    if OrderOf(st).Ok? {
      var o := OrderOf(st).value;
      SuspendOrderSpec(g);
      SuspendEachStarts(o, probe);
      assert s == o[..|s|];
      forall j | 0 <= j < |s| && s[j] == 0 ensures exists i :: 0 <= i < j && s[i] == c[0] {
        assert c[0] in g.sets;
        assert c[0] in Elems(o);
        var i :| 0 <= i < |o| && o[i] == c[0];
        ChainOrdered(g, o, c);
        assert o[j] == 0;
        assert i < j && s[i] == c[0];
      }
    } else {
      assert s == [];
    }
  }

  /**
   Waking along a safe suspend order read backwards: the domains woken are
   the keys of the dict other than dom0, each once, and a provider is woken
   before every domain that depends on it.
   */
  lemma ResumeEachSafe(g: Deps, o: seq<DomId>)
    requires ValidDeps(g) && IsSuspendOrder(g, o)
    ensures var w := Woken(ResumeEach(Reversed(o)));
      && NoDups(w) && Elems(w) == Elems(g.keys) - {0}
      && (forall i, j :: 0 <= i < |w| && 0 <= j < |w| && w[i] in g.sets && w[j] in g.sets[w[i]] ==> j < i)
  {
    var r := Reversed(o);
    ResumeEachSpec(r);
    ReversedElems(o);
    NonZeroElems(r);
    var w := NonZero(r);
    forall i, j | 0 <= i < j < |w| ensures w[i] != w[j] && (w[i] in g.sets ==> w[j] !in g.sets[w[i]]) {
      WokenPair(g, o, i, j);
    }
    forall i | 0 <= i < |w| && w[i] in g.sets ensures w[i] !in g.sets[w[i]] {
      assert w[i] in Elems(o);
      var p :| 0 <= p < |o| && o[p] == w[i];
    }
  }

  lemma WokenPair(g: Deps, o: seq<DomId>, i: nat, j: nat)
    requires ValidDeps(g) && IsSuspendOrder(g, o)
    requires i < j < |NonZero(Reversed(o))|
    ensures var w := NonZero(Reversed(o));
      w[i] != w[j] && (w[i] in g.sets ==> w[j] !in g.sets[w[i]])
  {
    var r := Reversed(o);
    var w := NonZero(r);
    var p, q := NonZeroOrder(r, i, j);
    var n := |o|;
    assert r[p] == o[n - 1 - p] && r[q] == o[n - 1 - q];
    LaterNotProvider(g, o, n - 1 - p, n - 1 - q);
  }

  /** In a safe order a domain is not a provider of one placed before it. */
  lemma LaterNotProvider(g: Deps, o: seq<DomId>, a: nat, b: nat)
    requires ValidDeps(g) && IsSuspendOrder(g, o)
    requires b < a < |o|
    ensures o[a] != o[b] && (o[a] in g.sets ==> o[b] !in g.sets[o[a]])
  {
  }

  /**
   Safety of `resume()`: when the dict cannot be built or sorted nothing is
   woken; otherwise the wakeups follow `ResumeEachSafe`.
   */
  lemma ResumePhaseSafe(st: Store)
    ensures OrderOf(st).Err? ==> ResumePhase(st).trace == []
    ensures Started(ResumePhase(st).trace) == []
    ensures OrderOf(st).Ok? ==>
      var g := Dependencies(st).value; var w := Woken(ResumePhase(st).trace);
      && NoDups(w) && Elems(w) == Elems(g.keys) - {0}
      && (forall i, j :: 0 <= i < |w| && 0 <= j < |w| && w[i] in g.sets && w[j] in g.sets[w[i]] ==> j < i)
  {
    if OrderOf(st).Ok? {
      var g := Dependencies(st).value;
      var o := OrderOf(st).value;
      SuspendOrderSpec(g);
      ResumeEachSpec(Reversed(o));
      ResumeEachSafe(g, o);
    } else {
      assert Started([]) == [];
    }
  }

  /**
   `system_suspend`: resume runs only when suspend returned, so a failed
   suspend wakes nothing; when the store is unchanged across the sleep and
   the cycle completes, every domain was suspended and the domains are woken
   in exactly the reverse of the suspend order, dom0 left out.
   */
  lemma CycleSpec(before: Store, after: Store, probe: Probe)
    ensures var s := SuspendPhase(before, probe); var c := Cycle(before, after, probe);
      && (s.outcome.Fail? ==> c == s && Woken(c.trace) == [])
      && (s.outcome.Pass? ==> c.trace == s.trace + ResumePhase(after).trace
                              && c.outcome == ResumePhase(after).outcome)
    ensures before == after && Cycle(before, after, probe).outcome.Pass? ==>
      var t := Cycle(before, after, probe).trace;
      Started(t) == OrderOf(before).value && Woken(t) == NonZero(Reversed(Started(t)))
  {
    var s := SuspendPhase(before, probe);
    SuspendPhaseSafe(before, probe);
    ResumePhaseSafe(after);
    if s.outcome.Pass? {
      var r := ResumePhase(after);
      StartedAppend(s.trace, r.trace);
      WokenAppend(s.trace, r.trace);
      if before == after && r.outcome.Pass? {
        var o := OrderOf(before).value;
        SuspendEachStarts(o, probe);
        ResumeEachSpec(Reversed(o));
        assert Started(s.trace) == o;
      }
    }
  }
}
