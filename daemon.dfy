/**
 The event daemon: `serve`, `on_domains_changed`, `setup_control_node` and
 `format_control_node_path`.

 The daemon keeps the list of domains it last saw and the watch
 registrations of its store monitor. A notification tagged "domain" (from
 the @introduceDomain/@releaseDomain watches) makes it diff the domain list
 and register or drop the per-domain control-node watches; a notification
 tagged with a domain id makes it read the control node and run a whole
 suspend cycle when the node says "suspend".
 */
module EventLoop {
  import opened Common
  import opened Decimal
  import opened XenStore
  import opened GraphBuilder
  import opened Lifecycle
  import opened Orchestrator
  import opened Utf8

  /** Token of the two global watches. */
  const DomainToken: string := "domain"

  /** The only command a control node can carry. */
  const SuspendRequest: string := "suspend"

  const ControlPrefix: string := "/local/domain/"
  const ControlSuffix: string := "/control/system-suspend-req"

  /** `format_control_node_path`: where a domain asks for a host suspend. */
  function ControlNodePath(domid: DomId): string
  {
    ControlPrefix + IntToString(domid) + ControlSuffix
  }

  /** The permission string `setup_control_node` sets: `w<d>`, naming the domain as the node's owner. */
  function WritePerm(domid: DomId): string
  {
    "w" + IntToString(domid)
  }

  /** A watch registration of the monitor: (path, token). */
  type Registration = (string, string)

  /** The two watches `serve` registers before its loop. */
  const GlobalWatches: set<Registration> :=
    {("@introduceDomain", DomainToken), ("@releaseDomain", DomainToken)}

  /** The watch on a domain's control node, tagged with the domain's id. */
  function DomainWatch(domid: DomId): Registration
  {
    (ControlNodePath(domid), IntToString(domid))
  }

  function DomainWatches(ds: set<DomId>): set<Registration>
  {
    set d | d in ds :: DomainWatch(d)
  }

  /** Different domains have different control nodes. */
  lemma ControlNodePathInjective(a: DomId, b: DomId)
    ensures ControlNodePath(a) == ControlNodePath(b) ==> a == b
  {
    if ControlNodePath(a) == ControlNodePath(b) {
      var p, n := ControlNodePath(a), |ControlPrefix|;
      var sa, sb := IntToString(a), IntToString(b);
      assert |sa| == |sb|;
      assert p[n..n + |sa|] == sa;
      assert ControlNodePath(b)[n..n + |sb|] == sb;
      IntToStringInjective(a, b);
    }
  }

  /** A domain's token is never the global token, so its watch is not a global one. */
  lemma DomainWatchNotGlobal(domid: DomId)
    ensures IntToString(domid) != DomainToken
    ensures DomainWatch(domid) !in GlobalWatches
  {
    var s := IntToString(domid);
    if domid >= 0 {
      assert s == NatToString(domid);
      assert IsDigit(s[0]);
    }
    assert s[0] != DomainToken[0];
  }

  lemma {:induction false} DomainWatchesChange(ds: set<DomId>, d: DomId)
    ensures DomainWatches(ds + {d}) == DomainWatches(ds) + {DomainWatch(d)}
    ensures DomainWatches(ds - {d}) == DomainWatches(ds) - {DomainWatch(d)}
    ensures d !in ds <==> DomainWatch(d) !in DomainWatches(ds)
  {
    forall x | x in ds && DomainWatch(x) == DomainWatch(d) ensures x == d {
      ControlNodePathInjective(x, d);
    }
  }

  /** The calls `setup_control_node` and `monitor.watch` make for one new domain. */
  function SetupEvents(d: DomId): seq<Event>
  {
    [Mkdir(ControlNodePath(d)), SetPerms(ControlNodePath(d), [WritePerm(d)]),
     Watch(ControlNodePath(d), IntToString(d))]
  }

  /** The calls for the new domains, in the order the set is walked. */
  function AddEvents(order: seq<DomId>): seq<Event>
  {
    if order == [] then [] else SetupEvents(order[0]) + AddEvents(order[1..])
  }

  /** The `monitor.unwatch` calls for the vanished domains, in the order the set is walked. */
  function RemoveEvents(order: seq<DomId>): seq<Event>
  {
    if order == [] then []
    else [Unwatch(ControlNodePath(order[0]), IntToString(order[0]))] + RemoveEvents(order[1..])
  }

  /** The store path an event acts on, if it acts on one. */
  function PathOf(e: Event): Option<string>
  {
    match e
    case Mkdir(p) => Some(p)
    case SetPerms(p, _) => Some(p)
    case Watch(p, _) => Some(p)
    case Unwatch(p, _) => Some(p)
    case _ => None
  }

  /** The events of t acting on the control node of d, in order. */
  function OnNode(t: seq<Event>, d: DomId): seq<Event>
  {
    if t == [] then []
    else (if PathOf(t[0]) == Some(ControlNodePath(d)) then [t[0]] else []) + OnNode(t[1..], d)
  }

  lemma {:induction false} OnNodeAppend(a: seq<Event>, b: seq<Event>, d: DomId)
    ensures OnNode(a + b, d) == OnNode(a, d) + OnNode(b, d)
  {
    if a == [] {
      assert a + b == b;
    } else {
      assert (a + b)[1..] == a[1..] + b;
      OnNodeAppend(a[1..], b, d);
      AppendAssoc(if PathOf(a[0]) == Some(ControlNodePath(d)) then [a[0]] else [], OnNode(a[1..], d), OnNode(b, d));
    }
  }

  lemma SetupOnNode(d0: DomId, d: DomId)
    ensures OnNode(SetupEvents(d0), d) == if d == d0 then SetupEvents(d0) else []
  {
    ControlNodePathInjective(d0, d);
    var t := SetupEvents(d0);
    var k := d == d0;
    assert t[1..][1..][1..] == [];
    assert OnNode(t[1..][1..], d) == if k then [t[2]] else [];
    assert OnNode(t[1..], d) == if k then [t[1], t[2]] else [];
  }

  lemma {:induction false} AddEventsOnNode(order: seq<DomId>, d: DomId)
    requires NoDups(order)
    ensures OnNode(AddEvents(order), d) == if d in order then SetupEvents(d) else []
  {
    if order != [] {
      var d0 := order[0];
      NoDupsTail(order);
      AddEventsOnNode(order[1..], d);
      SetupOnNode(d0, d);
      OnNodeAppend(SetupEvents(d0), AddEvents(order[1..]), d);
      assert d in order <==> d == d0 || d in order[1..] by {
        assert order == [d0] + order[1..];
      }
      assert d == d0 ==> d !in order[1..] by {
        assert d0 !in Elems(order[1..]);
      }
    }
  }

  lemma {:induction false} RemoveEventsOnNode(order: seq<DomId>, d: DomId)
    requires NoDups(order)
    ensures OnNode(RemoveEvents(order), d) == if d in order then [Unwatch(ControlNodePath(d), IntToString(d))] else []
  {
    if order != [] {
      var d0 := order[0];
      var u := [Unwatch(ControlNodePath(d0), IntToString(d0))];
      NoDupsTail(order);
      RemoveEventsOnNode(order[1..], d);
      OnNodeAppend(u, RemoveEvents(order[1..]), d);
      ControlNodePathInjective(d0, d);
      assert OnNode(u, d) == if d == d0 then u else [] by {
        assert u[1..] == [];
      }
      assert d in order <==> d == d0 || d in order[1..] by {
        assert order == [d0] + order[1..];
      }
      assert d == d0 ==> d !in order[1..] by {
        assert d0 !in Elems(order[1..]);
      }
    }
  }

  /**
   The elements of a that are not in seen, each once, in the order of their
   first occurrence in a: the iteration order of a set difference.
   */
  function Difference(a: seq<DomId>, seen: set<DomId>): (r: seq<DomId>)
    ensures NoDups(r) && Elems(r) == Elems(a) - seen
  {
    if a == [] then []
    else if a[0] in seen then Difference(a[1..], seen)
    else
      var rest := Difference(a[1..], seen + {a[0]});
      assert Elems(a) == {a[0]} + Elems(a[1..]) by {
        assert a == [a[0]] + a[1..];
        ElemsAppend([a[0]], a[1..]);
      }
      NoDupsCons(a[0], rest);
      ElemsAppend([a[0]], rest);
      [a[0]] + rest
  }

  /** `added = set(new) - set(old)`, walked in the order of the new list. */
  function Added(old_domains: seq<DomId>, domains: seq<DomId>): seq<DomId>
  {
    Difference(domains, Elems(old_domains))
  }

  /** `removed = set(old) - set(new)`, walked in the order of the old list. */
  function Removed(old_domains: seq<DomId>, domains: seq<DomId>): seq<DomId>
  {
    Difference(old_domains, Elems(domains))
  }

  /** `added` and `removed` of `on_domains_changed`, walked in the orders given. */
  ghost predicate Diffed(old_domains: seq<DomId>, domains: seq<DomId>, added: seq<DomId>, removed: seq<DomId>)
  {
    && NoDups(added) && Elems(added) == Elems(domains) - Elems(old_domains)
    && NoDups(removed) && Elems(removed) == Elems(old_domains) - Elems(domains)
  }

  /**
   What `on_domains_changed` does to the store and the monitor, domain by
   domain: a new domain gets exactly a mkdir, a set_perms and a watch of its
   control node, a vanished one exactly an unwatch, and a domain in both
   lists nothing at all.
   */
  lemma DiffEvents(old_domains: seq<DomId>, domains: seq<DomId>, added: seq<DomId>, removed: seq<DomId>, d: DomId)
    requires Diffed(old_domains, domains, added, removed)
    ensures d in domains && d !in old_domains ==>
      OnNode(AddEvents(added) + RemoveEvents(removed), d) == SetupEvents(d)
    ensures d in old_domains && d !in domains ==>
      OnNode(AddEvents(added) + RemoveEvents(removed), d) == [Unwatch(ControlNodePath(d), IntToString(d))]
    ensures (d in domains <==> d in old_domains) ==>
      OnNode(AddEvents(added) + RemoveEvents(removed), d) == []
  {
    assert (d in domains && d !in old_domains) <==> d in added by {
      assert d in added <==> d in Elems(added);
    }
    assert (d in old_domains && d !in domains) <==> d in removed by {
      assert d in removed <==> d in Elems(removed);
    }
    AddEventsOnNode(added, d);
    RemoveEventsOnNode(removed, d);
    OnNodeAppend(AddEvents(added), RemoveEvents(removed), d);
  }

  class Daemon {
    /** The domain list of the last `on_domains_changed`. */
    var domains: seq<DomId>
    /** The monitor's watch registrations. */
    var watches: set<Registration>
    /** The calls into the store and the monitor so far, and those of the suspend cycles run. */
    var trace: seq<Event>

    /** The monitor watches the two global paths and the control node of every tracked domain. */
    ghost predicate Valid()
      reads this
    {
      watches == GlobalWatches + DomainWatches(Elems(domains))
    }

    /** The start of `serve`: no domains known, the two global watches registered. */
    constructor ()
      ensures Valid()
      ensures domains == [] && watches == GlobalWatches
      ensures trace == [Watch("@introduceDomain", DomainToken), Watch("@releaseDomain", DomainToken)]
    {
      domains := [];
      watches := GlobalWatches;
      trace := [Watch("@introduceDomain", DomainToken), Watch("@releaseDomain", DomainToken)];
      new;
      assert Elems(domains) == {};
    }

    /** `setup_control_node`: create the domain's control node and set its permissions to `w<d>`. */
    method SetupControlNode(d: DomId)
      modifies this`trace
      ensures trace == old(trace) + [Mkdir(ControlNodePath(d)), SetPerms(ControlNodePath(d), [WritePerm(d)])]
    {
      var path := ControlNodePath(d);
      trace := trace + [Mkdir(path)];
      trace := trace + [SetPerms(path, [WritePerm(d)])];
    }

    /**
     `on_domains_changed`: list the domains, then for each new one set up its
     control node and watch it, and for each vanished one drop its watch.
     No watch is registered twice and every watch dropped was registered.
     If listing the domains raises, nothing changes.
     */
    method OnDomainsChanged(st: Store) returns (out: Outcome)
      requires Valid()
      modifies this
      ensures Valid()
      ensures DomainIds(st).Err? ==>
        out == Fail(DomainIds(st).error)
        && domains == old(domains) && watches == old(watches) && trace == old(trace)
      ensures DomainIds(st).Ok? ==>
        && out == Pass && domains == DomainIds(st).value
        && trace == old(trace) + AddEvents(Added(old(domains), domains)) + RemoveEvents(Removed(old(domains), domains))
        && (forall d :: d in Added(old(domains), domains) ==> DomainWatch(d) !in old(watches))
        && (forall d :: d in Removed(old(domains), domains) ==> DomainWatch(d) in old(watches))
    {
      var listed := DomainIds(st);
      if listed.Err? {
        return Fail(listed.error);
      }
      var ids := listed.value;
      var known := Elems(domains);
      ghost var w0 := watches;
      var added, removed := Added(domains, ids), Removed(domains, ids);
      WatchNew(added);
      UnwatchGone(removed);
      domains := ids;
      forall d | d in added ensures DomainWatch(d) !in w0 {
        assert d in Elems(added);
        DomainWatchNotGlobal(d);
        DomainWatchesChange(known, d);
      }
      forall d | d in removed ensures DomainWatch(d) in w0 {
        assert d in Elems(removed);
      }
      WatchesAfter(w0, known, Elems(added), Elems(removed));
      assert known + Elems(added) - Elems(removed) == Elems(ids);
      out := Pass;
    }

    /** The loop over `added`: set up and watch each new domain. */
    method WatchNew(order: seq<DomId>)
      modifies this`trace, this`watches
      ensures trace == old(trace) + AddEvents(order)
      ensures watches == old(watches) + DomainWatches(Elems(order))
    {
      for i := 0 to |order|
        invariant watches == old(watches) + DomainWatches(Elems(order[..i]))
        invariant trace == old(trace) + AddEvents(order[..i])
      {
        var d := order[i];
        assert order[..i + 1] == order[..i] + [d];
        DomainWatchesChange(Elems(order[..i]), d);
        AddEventsAppend(order[..i], d);
        ElemsAppend(order[..i], [d]);
        ghost var before := trace;
        SetupControlNode(d);
        var w := DomainWatch(d);
        trace := trace + [Watch(w.0, w.1)];
        watches := watches + {w};
        assert trace == before + SetupEvents(d);
        AppendAssoc(old(trace), AddEvents(order[..i]), SetupEvents(d));
      }
      assert order[..|order|] == order;
    }

    /** The loop over `removed`: drop the watch of each vanished domain. */
    method UnwatchGone(order: seq<DomId>)
      modifies this`trace, this`watches
      ensures trace == old(trace) + RemoveEvents(order)
      ensures watches == old(watches) - DomainWatches(Elems(order))
    {
      for i := 0 to |order|
        invariant watches == old(watches) - DomainWatches(Elems(order[..i]))
        invariant trace == old(trace) + RemoveEvents(order[..i])
      {
        var d := order[i];
        assert order[..i + 1] == order[..i] + [d];
        DomainWatchesChange(Elems(order[..i]), d);
        RemoveEventsAppend(order[..i], d);
        ElemsAppend(order[..i], [d]);
        var w := DomainWatch(d);
        trace := trace + [Unwatch(w.0, w.1)];
        watches := watches - {w};
      }
      assert order[..|order|] == order;
    }

    /**
     One turn of the loop of `serve` on the notification (path, token): a
     "domain" token runs `on_domains_changed`; any other token is a signal
     from a domain's control node, handled by `OnSignal`. `st` is the store
     as read for this notification, `after` the store once the host is back
     up. An exception (a node that cannot be read or decoded, a failed
     cycle) ends `serve`.
     */
    method Step(path: string, token: string, st: Store, after: Store, probe: Probe) returns (out: Outcome)
      requires Valid()
      modifies this
      ensures Valid()
      ensures token == DomainToken ==>
        && (DomainIds(st).Err? ==> out == Fail(DomainIds(st).error) && domains == old(domains) && trace == old(trace))
        && (DomainIds(st).Ok? ==>
              && out == Pass && domains == DomainIds(st).value
              && trace == old(trace) + AddEvents(Added(old(domains), domains)) + RemoveEvents(Removed(old(domains), domains)))
      ensures token != DomainToken ==>
        && domains == old(domains) && watches == old(watches)
        && (Read(st, path).Err? ==> out == Fail(Read(st, path).error) && trace == old(trace))
        && (Read(st, path).Ok? && Decode(Read(st, path).value).None? ==>
              out == Fail(Undecodable(Read(st, path).value)) && trace == old(trace))
        && (Read(st, path).Ok? && Decode(Read(st, path).value).Some? && Read(st, path).value != SuspendRequest ==>
              out == Pass && trace == old(trace))
        && (Read(st, path) == Ok(SuspendRequest) ==>
              out == Cycle(st, after, probe).outcome && trace == old(trace) + Cycle(st, after, probe).trace)
    {
      if token == DomainToken {
        out := OnDomainsChanged(st);
      } else {
        out := OnSignal(path, st, after, probe);
      }
    }

    /**
     The signal branch of `serve`: read the notified node and decode it as
     UTF-8; run `system_suspend` when it decodes to "suspend", that is, when
     it holds exactly the bytes `suspend`, and otherwise change nothing. A
     node that cannot be read or a value that does not decode raises.
     */
    method OnSignal(path: string, st: Store, after: Store, probe: Probe) returns (out: Outcome)
      modifies this`trace
      ensures Read(st, path).Err? ==> out == Fail(Read(st, path).error) && trace == old(trace)
      ensures Read(st, path).Ok? && Decode(Read(st, path).value).None? ==>
        out == Fail(Undecodable(Read(st, path).value)) && trace == old(trace)
      ensures Read(st, path).Ok? && Decode(Read(st, path).value).Some? && Read(st, path).value != SuspendRequest ==>
        out == Pass && trace == old(trace)
      ensures Read(st, path) == Ok(SuspendRequest) ==>
        out == Cycle(st, after, probe).outcome && trace == old(trace) + Cycle(st, after, probe).trace
    {
      var data := Read(st, path);
      if data.Err? {
        return Fail(data.error);
      }
      var text := Decode(data.value);
      if text.None? {
        return Fail(Undecodable(data.value));
      }
      SuspendRequestDecoded(data.value);
      if text.value == Codes(SuspendRequest) {
        var t;
        out, t := SystemSuspend(st, after, probe);
        trace := trace + t;
      } else {
        out := Pass;
      }
    }
  }

  /** The bytes of a node decode to "suspend" exactly when they are `suspend`. */
  lemma SuspendRequestDecoded(b: string)
    ensures Decode(b) == Some(Codes(SuspendRequest)) <==> b == SuspendRequest
  {
    DecodeAscii(b, SuspendRequest);
  }

  lemma {:induction false} AddEventsAppend(order: seq<DomId>, d: DomId)
    ensures AddEvents(order + [d]) == AddEvents(order) + SetupEvents(d)
  {
    if order == [] {
      assert order + [d] == [d];
    } else {
      assert (order + [d])[1..] == order[1..] + [d];
      AddEventsAppend(order[1..], d);
      AppendAssoc(SetupEvents(order[0]), AddEvents(order[1..]), SetupEvents(d));
    }
  }

  lemma {:induction false} RemoveEventsAppend(order: seq<DomId>, d: DomId)
    ensures RemoveEvents(order + [d]) == RemoveEvents(order) + [Unwatch(ControlNodePath(d), IntToString(d))]
  {
    if order == [] {
      assert order + [d] == [d];
    } else {
      assert (order + [d])[1..] == order[1..] + [d];
      RemoveEventsAppend(order[1..], d);
    }
  }

  lemma NoDupsCons(d: DomId, s: seq<DomId>)
    requires NoDups(s) && d !in Elems(s)
    ensures NoDups([d] + s)
  {
    forall i, j | 0 <= i < j < |s| + 1 ensures ([d] + s)[i] != ([d] + s)[j] {
      if i == 0 {
        assert s[j - 1] in Elems(s);
      }
    }
  }

  lemma WatchesAfter(w0: set<Registration>, known: set<DomId>, added: set<DomId>, removed: set<DomId>)
    requires w0 == GlobalWatches + DomainWatches(known)
    requires added !! known && removed <= known
    ensures GlobalWatches + DomainWatches(known + added - removed)
            == w0 + DomainWatches(added) - DomainWatches(removed)
  {
    forall x | x in GlobalWatches ensures x !in DomainWatches(removed) {
      if x in DomainWatches(removed) {
        var d :| d in removed && x == DomainWatch(d);
        DomainWatchNotGlobal(d);
      }
    }
    forall d, e | d in known + added - removed && e in removed ensures DomainWatch(d) != DomainWatch(e) {
      ControlNodePathInjective(d, e);
    }
  }
}
