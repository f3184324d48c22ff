/**
 Suspending and resuming one domain: `suspend_domain` and `resume_domain`.

 The status probe (xenstat) is an oracle: `probe(domid, n)` is whether the
 n-th status query made while waiting for `domid` (counting from 0) reports
 the domain shut down. libxl calls, sleeps and the write to
 /sys/power/state are events in the returned trace.
 */
module Lifecycle {
  import opened Common

  /** Default bound, in one-second polls, of `suspend_domain`. */
  const DefaultTimeout: int := 60

  /** Does the n-th status query of a domain report it shut down? */
  type Probe = (DomId, nat) -> bool

  /** The events of the polling loop and the value of `timeout` when it exits. */
  datatype Waited = Waited(events: seq<Event>, left: int)

  /**
   The polling loop from the n-th query on, with `left` seconds left: query,
   stop on shutdown, otherwise sleep one second and count down.
   */
  function Wait(domid: DomId, probe: Probe, n: nat, left: int): Waited
    decreases if left > 0 then left else 0
  {
    if left <= 0 then Waited([], left)
    else if probe(domid, n) then Waited([StatusPoll(domid)], left)
    else
      var w := Wait(domid, probe, n + 1, left - 1);
      Waited([StatusPoll(domid), Sleep(1)] + w.events, w.left)
  }

  /** What `suspend_domain(domid, timeout)` does and whether it raises. */
  function SuspendRun(domid: DomId, timeout: int, probe: Probe): Done
  {
    if domid == 0 then Done(Pass, [HostSleep])
    else
      var w := Wait(domid, probe, 0, timeout);
      Done(if w.left == 0 then Fail(SuspendFailed(domid)) else Pass, [SuspendTrigger(domid)] + w.events)
  }

  /**
   `suspend_domain`: dom0 is handed to the host sleep; any other domain gets
   a suspend trigger (whose result is ignored) and is then polled once a
   second until it reports shutdown or `timeout` runs down to zero.
   */
  method SuspendDomain(domid: DomId, timeout: int, probe: Probe) returns (out: Outcome, trace: seq<Event>)
    ensures Done(out, trace) == SuspendRun(domid, timeout, probe)
  {
    if domid == 0 {
      return Pass, [HostSleep];
    }
    var polls: seq<Event> := [];
    var left := timeout;
    var n: nat := 0;
    while left > 0
      invariant Wait(domid, probe, 0, timeout)
                == Waited(polls + Wait(domid, probe, n, left).events, Wait(domid, probe, n, left).left)
      decreases left
    {
      if probe(domid, n) {
        polls := polls + [StatusPoll(domid)];
        break;
      }
      AppendAssoc(polls, [StatusPoll(domid), Sleep(1)], Wait(domid, probe, n + 1, left - 1).events);
      polls := polls + [StatusPoll(domid), Sleep(1)];
      left := left - 1;
      n := n + 1;
    }
    assert polls + [] == polls;
    trace := [SuspendTrigger(domid)] + polls;
    out := if left == 0 then Fail(SuspendFailed(domid)) else Pass;
  }

  /** Number of status queries in a trace. */
  function Polls(t: seq<Event>): nat
  {
    if t == [] then 0 else (if t[0].StatusPoll? then 1 else 0) + Polls(t[1..])
  }

  lemma {:induction false} PollsAppend(a: seq<Event>, b: seq<Event>)
    ensures Polls(a + b) == Polls(a) + Polls(b)
  {
    if a != [] {
      assert (a + b)[1..] == a[1..] + b;
      PollsAppend(a[1..], b);
    } else {
      assert a + b == b;
    }
  }

  /**
   The loop makes at most `left` queries, and it runs down to zero exactly
   when none of those queries reports shutdown; a negative count skips it.
   */
  lemma {:induction false} WaitSpec(domid: DomId, probe: Probe, n: nat, left: int)
    ensures left <= 0 ==> Wait(domid, probe, n, left) == Waited([], left)
    ensures Polls(Wait(domid, probe, n, left).events) <= if left > 0 then left else 0
    ensures left >= 0 ==>
      (Wait(domid, probe, n, left).left == 0 <==> forall m :: n <= m < n + left ==> !probe(domid, m))
    ensures left > 0 && (forall m :: n <= m < n + left ==> !probe(domid, m)) ==>
      Polls(Wait(domid, probe, n, left).events) == left
    decreases if left > 0 then left else 0
  {
    if left > 0 {
      var w := Wait(domid, probe, n + 1, left - 1);
      WaitSpec(domid, probe, n + 1, left - 1);
      if probe(domid, n) {
        assert Polls([StatusPoll(domid)]) == 1;
      } else {
        PollsAppend([StatusPoll(domid), Sleep(1)], w.events);
        assert Polls([StatusPoll(domid), Sleep(1)]) == 1 by {
          assert [StatusPoll(domid), Sleep(1)][1..] == [Sleep(1)];
        }
      }
    }
  }

  /**
   The contract of `suspend_domain`: dom0 only puts the host to sleep and is
   never polled; another domain is triggered first and polled at most
   `timeout` times; for a non-negative timeout it raises exactly when no
   query reported shutdown, and with a negative one it never polls and
   never raises.
   */
  lemma SuspendRunSpec(domid: DomId, timeout: int, probe: Probe)
    ensures var r := SuspendRun(domid, timeout, probe);
      && (domid == 0 ==> r == Done(Pass, [HostSleep]))
      && (domid != 0 ==> r.trace[0] == SuspendTrigger(domid))
      && (domid != 0 ==> Polls(r.trace) <= if timeout > 0 then timeout else 0)
      && (domid != 0 && timeout >= 0 ==>
            (r.outcome.Fail? <==> forall n :: 0 <= n < timeout ==> !probe(domid, n)))
      && (r.outcome.Fail? ==> r.outcome.error == SuspendFailed(domid))
      && (domid != 0 && timeout < 0 ==> r == Done(Pass, [SuspendTrigger(domid)]))
  {
    if domid != 0 {
      var w := Wait(domid, probe, 0, timeout);
      WaitSpec(domid, probe, 0, timeout);
      PollsAppend([SuspendTrigger(domid)], w.events);
      assert Polls([SuspendTrigger(domid)]) == 0;
    }
  }

  /** A domain left unresponsive for the whole timeout makes `suspend_domain` raise after exactly `timeout` queries. */
  lemma SuspendTimesOut(domid: DomId, timeout: int, probe: Probe)
    requires domid != 0 && timeout > 0
    requires forall n :: 0 <= n < timeout ==> !probe(domid, n)
    ensures SuspendRun(domid, timeout, probe).outcome == Fail(SuspendFailed(domid))
    ensures Polls(SuspendRun(domid, timeout, probe).trace) == timeout
  {
    var w := Wait(domid, probe, 0, timeout);
    WaitSpec(domid, probe, 0, timeout);
    PollsAppend([SuspendTrigger(domid)], w.events);
    assert Polls([SuspendTrigger(domid)]) == 0;
  }

  /** What `resume_domain(domid)` does: nothing for dom0, one wakeup otherwise. */
  function ResumeRun(domid: DomId): seq<Event>
  {
    if domid == 0 then [] else [Wakeup(domid)]
  }

  /** `resume_domain`: returns at once for dom0; otherwise wakes the domain and does not wait. */
  method ResumeDomain(domid: DomId) returns (trace: seq<Event>)
    ensures trace == ResumeRun(domid)
    ensures domid == 0 <==> trace == []
    ensures domid != 0 ==> trace == [Wakeup(domid)]
  {
    if domid == 0 {
      return [];
    }
    trace := [Wakeup(domid)];
  }

  /** The domains whose suspension a trace begins, in order (the host sleep is dom0's). */
  function Started(t: seq<Event>): seq<DomId>
  {
    if t == [] then []
    else (match t[0] case SuspendTrigger(d) => [d] case HostSleep => [0] case _ => []) + Started(t[1..])
  }

  /** The domains a trace wakes, in order. */
  function Woken(t: seq<Event>): seq<DomId>
  {
    if t == [] then [] else (if t[0].Wakeup? then [t[0].domid] else []) + Woken(t[1..])
  }

  lemma {:induction false} StartedAppend(a: seq<Event>, b: seq<Event>)
    ensures Started(a + b) == Started(a) + Started(b)
  {
    if a != [] {
      assert (a + b)[1..] == a[1..] + b;
      StartedAppend(a[1..], b);
    } else {
      assert a + b == b;
    }
  }

  lemma {:induction false} WokenAppend(a: seq<Event>, b: seq<Event>)
    ensures Woken(a + b) == Woken(a) + Woken(b)
  {
    if a != [] {
      assert (a + b)[1..] == a[1..] + b;
      WokenAppend(a[1..], b);
    } else {
      assert a + b == b;
    }
  }

  lemma {:induction false} WaitQuiet(domid: DomId, probe: Probe, n: nat, left: int)
    ensures Started(Wait(domid, probe, n, left).events) == []
    ensures Woken(Wait(domid, probe, n, left).events) == []
    decreases if left > 0 then left else 0
  {
    if left > 0 && !probe(domid, n) {
      var w := Wait(domid, probe, n + 1, left - 1);
      WaitQuiet(domid, probe, n + 1, left - 1);
      StartedAppend([StatusPoll(domid), Sleep(1)], w.events);
      WokenAppend([StatusPoll(domid), Sleep(1)], w.events);
    }
  }

  /** Suspending a domain begins the suspension of that domain only, and wakes none. */
  lemma SuspendRunStarts(domid: DomId, timeout: int, probe: Probe)
    ensures Started(SuspendRun(domid, timeout, probe).trace) == [domid]
    ensures Woken(SuspendRun(domid, timeout, probe).trace) == []
  {
    if domid != 0 {
      var w := Wait(domid, probe, 0, timeout);
      WaitQuiet(domid, probe, 0, timeout);
      StartedAppend([SuspendTrigger(domid)], w.events);
      WokenAppend([SuspendTrigger(domid)], w.events);
    }
  }
}
