# xensuspend, modelled in Dafny

xensuspend puts a Xen host to sleep without breaking its guests. Some domains
serve the backends of other domains' virtual disks and network cards. Before
dom0 writes `mem` to `/sys/power/state`, every other domain must be suspended,
dependents before the domains that serve them. After the host wakes, the
domains are resumed in the reverse order. A daemon watches xenstore for
domains that appear or vanish. It gives each domain a control node it may
write, and starts a whole suspend cycle when a domain writes `suspend` there.

This project models `xensuspend/main.py`, module by module:

- `Common`: domain ids, the dependency dict, results and errors, and the
  events the code causes in the outside world.
- `Decimal`: `str(n)` and `int(text)` for domain ids.
- `XenStore`: the store as a snapshot map from path to value and children.
  `List` and `Read` fail on a missing path, as the client raises. Paths and
  values are byte strings; a `string` stands for one, a character per byte.
- `Utf8`: strict UTF-8 decoding (section 4 of RFC 3629), the `data.decode()`
  that `serve` applies to a notified node's value.
- `GraphBuilder`: `get_domain_ids`, `get_backends` and `build_deps`.
  - `GetBackends` and `BuildDeps` are the source's loops, proved equal to
    the functions `Backends` and `Dependencies`.
  - A Python dict is modelled as `Deps`: its key order plus a map from key
    to set.
- `Ordering`: `get_suspend_order`, as a method with the source's nested loops.
  - It is proved equal to the function `SuspendOrder`, which follows the
    source pass by pass. A pass takes the first key in dict order whose set
    is empty.
  - The lemmas prove the method sound, complete and terminating.
  - `dict(deps)` is a shallow copy, so stripping a key empties the caller's
    inner sets. The model returns those sets as `shared`.
- `Lifecycle`: `suspend_domain` (the polling countdown) and `resume_domain`.
  - The status query is an oracle: `probe(domid, n)` is what the n-th query
    for that domain reports.
  - libxl calls, sleeps and the host sleep are events in a returned trace.
- `Orchestrator`: `suspend`, `resume` and `system_suspend`.
  - `suspend` reads the store before the host sleeps. `resume` reads it
    again after the host wakes and recomputes the order, as the source does.
- `EventLoop`: `format_control_node_path`, `setup_control_node`,
  `on_domains_changed` and one turn of the `serve` loop.
  - The daemon is a class with the tracked domain list, the monitor's watch
    registrations and the trace of calls made.
  - Its invariant: the watches are the two global ones plus one per tracked
    domain.

Behaviour of the code that the model keeps as written:

- **A failed cycle ends `serve`.** `serve` has no exception handler. So a
  failing suspend cycle, or a notified node that cannot be read, propagates
  out of the loop and the daemon stops. `Step` returns `Fail` in those
  cases. So does a node value that is not valid UTF-8, since
  `data.decode()` raises on it.
- **Trigger failures are ignored.** `suspend_domain` discards the result of
  `suspend_trigger`, so a failing trigger only shows up as a poll timeout.
- **A negative timeout never raises.** The final check is `timeout == 0`, so
  a negative timeout skips the polling loop and `suspend_domain` returns
  normally.
- **Each phase recomputes the order.** `resume` rebuilds the dict and sorts
  it again rather than reusing the order that `suspend` computed.
- **Domain ids are plain integers.** `int()` accepts negative ids, so ids
  are `int`, not restricted to non-negative values.

## Model

| member | source | states |
|---|---|---|
| Decimal.IntRoundTrip | xensuspend/main.py:155 | `int(str(n)) == n` for every integer id |
| Decimal.IntToStringInjective | xensuspend/main.py:155 | distinct domain ids have distinct watch tokens |
| Decimal.ParseIntRejects | xensuspend/main.py:32 | the model's `int()` (an optional sign, then ASCII digits) fails on any other character, on a lone sign and on the empty text |
| GraphBuilder.ParseIds | xensuspend/main.py:32 | the id list succeeds exactly when every name parses, keeps order and length, and otherwise raises on the first non-numeric name |
| GraphBuilder.DomainIds | xensuspend/main.py:29-32 | `get_domain_ids` succeeds exactly when /local/domain exists and all its children are numbers, and returns their values in listing order |
| GraphBuilder.GetBackends | xensuspend/main.py:34-49 | the nested device loops return exactly what `Backends` specifies, including the first read failure |
| GraphBuilder.DevicesBackendsMembers | xensuspend/main.py:45-48 | the backends collected over a device list are exactly those reached through some device's frontend |
| GraphBuilder.TypesBackendsMembers | xensuspend/main.py:43-48 | the backends collected over all device types are exactly those reached through some device of some type |
| GraphBuilder.BackendsSpec | xensuspend/main.py:34-49 | no /libxl/{domid} record gives the empty set; otherwise a successful result is exactly the set of backend-id values reached through the listed devices' frontends |
| GraphBuilder.Assign | xensuspend/main.py:61 | dict assignment keeps the dict well formed: a new key goes last and an existing key keeps its place |
| GraphBuilder.DepsOf | xensuspend/main.py:59-61 | filling the dict one id at a time yields a well-formed dict |
| GraphBuilder.Dependencies | xensuspend/main.py:51-63 | what `build_deps` returns is a well-formed dict |
| GraphBuilder.BuildDeps | xensuspend/main.py:51-63 | the loop returns exactly `Dependencies`, a well-formed dict, or the first failure |
| GraphBuilder.DepsOfOk | xensuspend/main.py:59-61 | filling the dict succeeds exactly when every id's backends can be read |
| GraphBuilder.DepsOfShape | xensuspend/main.py:59-61 | the filled dict has the old keys plus the ids; each assigned id maps to its backends and every other key is untouched |
| GraphBuilder.DepsOfOrder | xensuspend/main.py:58-61 | with repeat-free ids the dict's key order is the old order followed by the ids |
| GraphBuilder.DependenciesOk | xensuspend/main.py:51-63 | `build_deps` raises exactly when the listing fails or some listed domain's backends cannot be read |
| GraphBuilder.DependenciesShape | xensuspend/main.py:51-63 | the dict's keys are exactly the listed ids, each mapped to its backends, in listing order when there are no repeats |
| Ordering.FirstReady | xensuspend/main.py:69-76 | the scan stops at the first key in dict order with an empty set, and every key before it has a non-empty set |
| Ordering.StripAll | xensuspend/main.py:73-75 | the stripping loop yields exactly `Strip` |
| Ordering.GetSuspendOrder | xensuspend/main.py:65-82 | the loops compute `SuspendOrder`. It returns exactly when a safe suspend order exists, and then returns one: every key once, dependents before their providers. Otherwise it raises with a stuck remainder |
| Ordering.ProgressStep | xensuspend/main.py:69-76 | one pass that removes a ready key keeps the loop invariant |
| Ordering.RunSound | xensuspend/main.py:68-81 | from any state satisfying the invariant the passes end in a safe order with all shared sets emptied, or raise in a stuck state |
| Ordering.FinishedIsSuspendOrder | xensuspend/main.py:81 | once the working dict is empty, the reversed list is a safe suspend order |
| Ordering.FinishedClosed | xensuspend/main.py:81 | at the end every provider of a listed key is itself listed |
| Ordering.FinishedOrdered | xensuspend/main.py:81 | reversing a providers-first removal list puts each domain before all its providers |
| Ordering.ProviderRemovedEarlier | xensuspend/main.py:70-72 | a key is removed only after each of its providers |
| Ordering.StuckState | xensuspend/main.py:78-79 | when no key is ready the remainder is non-empty, every set in it is non-empty and equals the original set minus the removed keys |
| Ordering.ProvidersFirstStep | xensuspend/main.py:69-76 | removing any key from a dict that has a providers-first order leaves a dict that still has one |
| Ordering.RunComplete | xensuspend/main.py:68-79 | if the remaining keys admit a providers-first order, the passes never raise |
| Ordering.SuspendOrderReversed | xensuspend/main.py:81 | every safe suspend order read backwards puts providers first |
| Ordering.SuspendOrderSpec | xensuspend/main.py:65-82 | success exactly when a safe order exists; on success a safe order and the caller's inner sets all emptied; on failure the loop error with the stuck remainder, the caller's sets equal to it |
| Ordering.SortedHasNoLoops | xensuspend/main.py:78-79 | a successful sort rules out self-dependencies, mutual dependencies and providers that are not listed domains |
| Ordering.ChainOrdered | xensuspend/main.py:110-111 | a domain is suspended before every domain it depends on through any chain of backends |
| Ordering.ResumeProvidersFirst | xensuspend/main.py:115 | the reversed order resumes every provider before the domains that depend on it |
| Ordering.TestDepsValid | xensuspend/main.py:199-207 | the test dict is well formed |
| Ordering.TestOrderIsSafe | xensuspend/main.py:198-208 | [5, 6, 4, 3, 2, 1, 0] respects every edge of the test dict |
| Ordering.TestOrderShape | xensuspend/main.py:198-208 | every safe order of the test dict has seven entries, starts with 5 and ends with 0 |
| Ordering.TestSuspendOrder | xensuspend/main.py:198-208 | sorting the test dict returns, and the result respects every edge, starts with 5 and ends with 0 |
| Ordering.MutualDependencyRaises | xensuspend/main.py:78-79 | two domains serving each other make the sort raise with the whole dict as the remainder |
| Lifecycle.SuspendDomain | xensuspend/main.py:165-183 | the polling loop produces exactly the outcome and trace of `SuspendRun` |
| Lifecycle.WaitSpec | xensuspend/main.py:173-180 | the loop makes at most `timeout` queries; for a non-negative count it runs down to zero exactly when no query reports shutdown |
| Lifecycle.SuspendRunSpec | xensuspend/main.py:165-183 | dom0: host sleep only, no polling. Others: trigger first, at most `timeout` polls. With a non-negative timeout it raises exactly when no poll saw shutdown; with a negative one it neither polls nor raises |
| Lifecycle.SuspendTimesOut | xensuspend/main.py:173-183 | a domain that never reports shutdown makes `suspend_domain` raise after exactly `timeout` polls |
| Lifecycle.ResumeDomain | xensuspend/main.py:185-190 | nothing for dom0, exactly one wakeup for any other domain |
| Lifecycle.SuspendRunStarts | xensuspend/main.py:165-171 | suspending a domain begins the suspension of that domain only and wakes none |
| Orchestrator.Suspend | xensuspend/main.py:108-111 | produces exactly `SuspendPhase`: build, sort, then suspend in order; a failed build or sort raises before any domain is touched |
| Orchestrator.SuspendInOrder | xensuspend/main.py:110-111 | the loop produces exactly `SuspendEach`: suspend each domain in order, stop at the first raise |
| Orchestrator.Resume | xensuspend/main.py:113-117 | the loop produces exactly `ResumePhase`: rebuild, sort, resume in reverse order, 3 seconds after each |
| Orchestrator.SystemSuspend | xensuspend/main.py:161-163 | produces exactly `Cycle`: resume runs only after suspend returned |
| Orchestrator.NonZeroElems | xensuspend/main.py:186-187 | the domains woken are the listed ones except dom0 |
| Orchestrator.SuspendEachStarts | xensuspend/main.py:110-111 | the domains begun are a prefix of the order, none is woken; all are begun when it returns, and a raise comes from the last one begun |
| Orchestrator.SuspendEachOutcome | xensuspend/main.py:110-111 | the loop returns exactly when every domain's suspend returns; on a raise all earlier domains were suspended |
| Orchestrator.ResumeEachSpec | xensuspend/main.py:115-117 | the loop wakes exactly the non-dom0 domains in order, begins no suspension, and follows every wakeup with a 3-second settle |
| Orchestrator.SuspendEachSafe | xensuspend/main.py:110-111 | over a safe order each domain begun is begun once, before its providers, and after all the domains that depend on it |
| Orchestrator.SuspendPhaseSafe | xensuspend/main.py:108-111 | `suspend` wakes nothing and begins nothing when the sort fails; otherwise the domains begun are dependency-closed and ordered, and all of them when it returns |
| Orchestrator.HostSleepsLast | xensuspend/main.py:108-111 | the host sleeps only after every domain that depends on dom0 through a chain of backends has been suspended |
| Orchestrator.ResumeEachSafe | xensuspend/main.py:115-117 | over a reversed safe order every non-dom0 domain is woken once, after its providers |
| Orchestrator.WokenPair | xensuspend/main.py:115-117 | of two domains woken in turn, the later one is not a provider of the earlier |
| Orchestrator.ResumePhaseSafe | xensuspend/main.py:113-117 | `resume` begins no suspension, wakes nothing when the sort fails, and otherwise wakes every non-dom0 domain once, providers first |
| Orchestrator.CycleSpec | xensuspend/main.py:161-163 | a failed suspend ends the cycle with no wakeups; otherwise the resume trace follows. On an unchanged store a completed cycle wakes, in reverse, exactly the non-dom0 domains it suspended |
| EventLoop.ControlNodePathInjective | xensuspend/main.py:119-120 | different domains get different control-node paths |
| EventLoop.DomainWatchNotGlobal | xensuspend/main.py:131-132 | a domain's watch token is never "domain", so its watch is not one of the two global watches |
| EventLoop.DomainWatchesChange | xensuspend/main.py:155 | adding or removing one domain adds or removes exactly its watch |
| EventLoop.SetupOnNode | xensuspend/main.py:122-125 | setting up a domain touches its own control node and no other |
| EventLoop.AddEventsOnNode | xensuspend/main.py:153-155 | over repeat-free added domains, each gets exactly mkdir, set_perms and watch on its node, and any other domain's node is untouched |
| EventLoop.RemoveEventsOnNode | xensuspend/main.py:157-158 | over repeat-free removed domains, each gets exactly one unwatch and any other node is untouched |
| EventLoop.Difference | xensuspend/main.py:146-147 | the set difference walked without repeats, holding exactly the elements of one list missing from the other |
| EventLoop.DiffEvents | xensuspend/main.py:144-159 | for any repeat-free walk of the two differences: a new domain gets exactly mkdir, set_perms(`w<id>`) and watch on its node; a vanished one exactly one unwatch; a domain in both lists nothing |
| EventLoop.Daemon.constructor | xensuspend/main.py:128-132 | the daemon starts with no domains and the two global watches registered |
| EventLoop.Daemon.SetupControlNode | xensuspend/main.py:122-125 | creates the domain's control node and sets its permission list to `w<d>`, making the domain the node's owner |
| EventLoop.Daemon.WatchNew | xensuspend/main.py:153-155 | sets up and watches each added domain, in order |
| EventLoop.Daemon.UnwatchGone | xensuspend/main.py:157-158 | unwatches each removed domain, in order |
| EventLoop.Daemon.OnDomainsChanged | xensuspend/main.py:144-159 | the domain list is replaced by the new listing; the calls are the setups of the added domains then the unwatches of the removed; no watch is registered twice and every watch dropped was registered; the invariant is kept; a failed listing changes nothing |
| EventLoop.Daemon.Step | xensuspend/main.py:133-142 | a "domain" token runs `on_domains_changed`; any other token reads the node: an unreadable node or a value that is not UTF-8 raises and ends `serve`; the whole cycle runs exactly when the value is the bytes `suspend`; otherwise nothing changes; the invariant is kept |
| EventLoop.Daemon.OnSignal | xensuspend/main.py:138-142 | a node that cannot be read, or whose value is not UTF-8, raises with nothing done; the whole cycle runs exactly when the value is the bytes `suspend`; any other value changes nothing |
| Utf8.Lead | xensuspend/main.py:141 | a decoded character spans 1 to 4 bytes, and only a single byte below 0x80 decodes to a code point below 0x80 |
| Utf8.DecodeOfAscii | xensuspend/main.py:141 | ASCII bytes decode to their own code points |
| Utf8.DecodeToAscii | xensuspend/main.py:141 | bytes that decode to an ASCII text are that text's bytes |
| Utf8.DecodeAscii | xensuspend/main.py:141 | `data.decode() == "suspend"` holds exactly when the bytes are `suspend` |
| Utf8.LoneHighByteRejected | xensuspend/main.py:141 | a lone byte from 0x80 to 0xFF, such as `b"\xff"`, makes `decode()` raise |

## Left out

- `main()`, argument parsing, daemonization and the PID file are I/O
  plumbing and are not part of this model.
- The `while True` of `serve` and the blocking `m.wait()` are not modelled;
  `EventLoop.Daemon.Step` models one turn of the loop.
- `print` logging has no effect on the modelled state and is left out.
- xensuspend/xenstat.py and xensuspend/libxl.py are not part of this model.
  Their effects are events (`SuspendTrigger`, `Wakeup`, `StatusPoll`), and
  the status query's answer is the oracle `probe`. Failures inside these
  wrappers, including context setup failing and a wakeup failing, are not
  modelled.
- `suspend_dom0` is the single `HostSleep` event. Writing `/sys/power/state`
  and the host waking are outside the model.
- `time.sleep` is the `Sleep(units)` event; no clock is modelled.
- Store writes made by the daemon (mkdir, set_perms) are recorded as events
  but not applied to the store snapshot. Each read takes the snapshot
  passed in.
- xenstored's permission semantics are not modelled: the `SetPerms` event
  records the list `[w<d>]` only. In xenstored the first entry names the
  owner and also sets the access of every other domain, so `w<d>` lets
  other domains write the node as well.
- Decimal.ParseInt: accepts only an optional sign followed by ASCII digits;
  Python's `int()` also accepts surrounding whitespace and `_` digit
  separators (`int(b" 5") == 5`, `int(b"1_0") == 10`), so a domain entry
  such as `" 5"` is rejected by the model but accepted by the code.
- Decimal.ParseIntRejects: states the rejections of the model's `int()`,
  which is stricter than Python's as the line above says.
- `resume_domain` takes a `timeout` argument that it never uses, so the model
  drops it.
- EventLoop.Daemon.OnDomainsChanged: walks `added` in the order of the new
  domain list and `removed` in the order of the old one. CPython walks the
  sets in hash order instead. `EventLoop.DiffEvents` holds for every
  repeat-free walk order.
- Ordering.TestSuspendOrder: proves that the sort of the test dict returns,
  that its result respects every edge, and that it starts with 5 and ends
  with 0. It does not prove the exact list: evaluating the sort on the
  literal dict is not attempted. The lists in
  `test_suspend_order` are read as sets. The source only prints the result.
