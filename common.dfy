/**
 Types shared by every component of the suspend coordinator: guest ids, the
 dependency dictionary, the error taxonomy, the trace of external effects,
 and a few sequence helpers.
 */
module Common {

  /** A Xen domain id; 0 is the control domain (dom0). */
  type DomId = int

  datatype Option<T> = None | Some(value: T)

  /**
   A Python dict from domain id to the set of domains providing its backends.
   `keys` is the dict's insertion order, `sets` its values.
   */
  datatype Deps = Deps(keys: seq<DomId>, sets: map<DomId, set<DomId>>)

  /** A well-formed dict: insertion order lists every key exactly once. */
  predicate ValidDeps(g: Deps)
  {
    NoDups(g.keys) && g.sets.Keys == Elems(g.keys)
  }

  /** The exceptions the core raises or lets escape. */
  datatype Error =
    | NoSuchNode(path: string)          // store `list`/read of a missing path
    | NotAnInteger(text: string)        // `int(...)` of a non-numeric value
    | DepsLoop(remaining: Deps)         // "Loop in domain deps found: " + str(deps)
    | SuspendFailed(domid: DomId)       // "Failed to suspend domain {}"
    | Undecodable(data: string)         // UnicodeDecodeError from `bytes.decode()`

  datatype Result<T> = Ok(value: T) | Err(error: Error)
  {
    predicate IsFailure() { Err? }
    function PropagateFailure<U>(): Result<U> requires Err? { Err(error) }
    function Extract(): T requires Ok? { value }
  }

  /** Completion of an operation that returns nothing or raises. */
  datatype Outcome = Pass | Fail(error: Error)

  /** How an operation ended and the calls into the environment it made on the way. */
  datatype Done = Done(outcome: Outcome, trace: seq<Event>)

  /** One call into the environment, in the order the core makes it. */
  datatype Event =
    | HostSleep                                   // "mem" written to /sys/power/state
    | SuspendTrigger(domid: DomId)                // libxl_domain_suspend_trigger
    | StatusPoll(domid: DomId)                    // xenstat query of the domain's state
    | Sleep(units: nat)                           // time.sleep
    | Wakeup(domid: DomId)                        // libxl_domain_wakeup
    | Mkdir(path: string)                         // store mkdir
    | SetPerms(path: string, perms: seq<string>)  // store set_perms
    | Watch(path: string, token: string)          // monitor.watch
    | Unwatch(path: string, token: string)        // monitor.unwatch

  function Elems<T>(s: seq<T>): set<T>
  {
    set x | x in s
  }

  predicate NoDups<T(==)>(s: seq<T>)
  {
    forall i, j :: 0 <= i < j < |s| ==> s[i] != s[j]
  }

  /** Python's `list.reverse()` / `reversed(...)`. */
  function Reversed<T>(s: seq<T>): (r: seq<T>)
    ensures |r| == |s|
    ensures forall i :: 0 <= i < |s| ==> r[i] == s[|s| - 1 - i]
  {
    if s == [] then [] else Reversed(s[1..]) + [s[0]]
  }

  lemma ReversedElems<T>(s: seq<T>)
    ensures Elems(Reversed(s)) == Elems(s)
    ensures NoDups(s) ==> NoDups(Reversed(s))
  {
    var r := Reversed(s);
    forall x | x in Elems(s) ensures x in Elems(r) {
      var i :| 0 <= i < |s| && s[i] == x;
      assert r[|s| - 1 - i] == x;
    }
  }

  /** The sequence with its i-th element removed (`del` on a dict's key order). */
  function RemoveAt<T>(s: seq<T>, i: nat): (r: seq<T>)
    requires i < |s|
    ensures |r| == |s| - 1
    ensures forall j :: 0 <= j < i ==> r[j] == s[j]
    ensures forall j :: i <= j < |r| ==> r[j] == s[j + 1]
  {
    s[..i] + s[i + 1..]
  }

  lemma RemoveAtElems<T>(s: seq<T>, i: nat)
    requires i < |s| && NoDups(s)
    ensures NoDups(RemoveAt(s, i))
    ensures Elems(RemoveAt(s, i)) == Elems(s) - {s[i]}
  {
    var r := RemoveAt(s, i);
    forall x | x in Elems(s) - {s[i]} ensures x in Elems(r) {
      var j :| 0 <= j < |s| && s[j] == x;
      if j < i { assert r[j] == x; } else { assert r[j - 1] == x; }
    }
  }

  lemma NoDupsTail<T>(s: seq<T>)
    requires |s| > 0 && NoDups(s)
    ensures NoDups(s[1..])
    ensures Elems(s) == {s[0]} + Elems(s[1..])
    ensures s[0] !in Elems(s[1..])
  {
    assert forall i :: 1 <= i < |s| ==> s[1..][i - 1] == s[i];
  }

  /** A sequence without repeats has as many distinct elements as entries. */
  lemma {:induction false} NoDupsCard<T>(s: seq<T>)
    requires NoDups(s)
    ensures |Elems(s)| == |s|
  {
    if s != [] {
      NoDupsTail(s);
      NoDupsCard(s[1..]);
    }
  }

  lemma AppendAssoc<T>(a: seq<T>, b: seq<T>, c: seq<T>)
    ensures (a + b) + c == a + (b + c)
  {
  }

  lemma ElemsAppend<T>(a: seq<T>, b: seq<T>)
    ensures Elems(a + b) == Elems(a) + Elems(b)
  {
    forall x | x in Elems(a + b) ensures x in Elems(a) + Elems(b) {
      var i :| 0 <= i < |a + b| && (a + b)[i] == x;
      if i < |a| { assert a[i] == x; } else { assert b[i - |a|] == x; }
    }
    forall x | x in Elems(a) + Elems(b) ensures x in Elems(a + b) {
      if x in Elems(a) {
        var i :| 0 <= i < |a| && a[i] == x;
        assert (a + b)[i] == x;
      } else {
        var i :| 0 <= i < |b| && b[i] == x;
        assert (a + b)[|a| + i] == x;
      }
    }
  }
}
