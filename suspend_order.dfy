/**
 `get_suspend_order`: Kahn-style topological sort of the dependency dict.
 Each pass takes the first key, in dict order, whose set of providers is
 empty, appends it, deletes it from the working dict and strips it from the
 sets of the keys still there; when no key is ready it raises. The list of
 removed keys (providers first) is reversed into the suspend order
 (dependents first).

 The working dict is a shallow copy (`dict(deps)`): deleting keys does not
 touch the caller's dict, but stripping mutates the caller's inner sets. The
 model keeps the key order of the copy in `keys` and the shared inner sets in
 one map, and returns that map as the caller's sets after the call.
 */
module Ordering {
  import opened Common

  /** What `get_suspend_order(deps)` returns or raises, and the caller's inner sets afterwards. */
  datatype Sorted = Sorted(order: Result<seq<DomId>>, shared: map<DomId, set<DomId>>)

  /** Every key of the working dict's order has a set. */
  predicate Keyed(keys: seq<DomId>, sets: map<DomId, set<DomId>>)
  {
    forall i :: 0 <= i < |keys| ==> keys[i] in sets
  }

  /** Index of the first key, in dict order, with an empty set; `|keys|` when there is none. */
  function FirstReady(keys: seq<DomId>, sets: map<DomId, set<DomId>>): (i: nat)
    requires Keyed(keys, sets)
    ensures i <= |keys|
    ensures forall j :: 0 <= j < i ==> sets[keys[j]] != {}
    ensures i < |keys| ==> sets[keys[i]] == {}
  {
    if keys == [] then 0
    else if sets[keys[0]] == {} then 0
    else 1 + FirstReady(keys[1..], sets)
  }

  /** `v1.remove(k)` on the set of every key still in the working dict that holds k. */
  function Strip(sets: map<DomId, set<DomId>>, keys: seq<DomId>, k: DomId): (r: map<DomId, set<DomId>>)
    ensures r.Keys == sets.Keys
    ensures forall a :: a in sets ==> r[a] == if a in keys then sets[a] - {k} else sets[a]
  {
    map a | a in sets :: if a in keys then sets[a] - {k} else sets[a]
  }

  lemma StripStep(sets: map<DomId, set<DomId>>, keys: seq<DomId>, j: nat, k: DomId)
    requires j < |keys| && keys[j] in sets
    ensures var s := Strip(sets, keys[..j], k);
      Strip(sets, keys[..j + 1], k) == s[keys[j] := s[keys[j]] - {k}]
  {
    var s := Strip(sets, keys[..j], k);
    var t := Strip(sets, keys[..j + 1], k);
    assert keys[..j + 1] == keys[..j] + [keys[j]];
    forall a | a in t ensures t[a] == s[keys[j] := s[keys[j]] - {k}][a] {
      assert a in keys[..j + 1] <==> a in keys[..j] || a == keys[j];
    }
  }

  /** The working dict as the exception message shows it: the keys still there with their sets. */
  function Remaining(keys: seq<DomId>, sets: map<DomId, set<DomId>>): Deps
  {
    Deps(keys, map a | a in sets && a in keys :: sets[a])
  }

  /** The passes from a state of the working copy: its key order, the shared sets, the list so far. */
  function Run(keys: seq<DomId>, sets: map<DomId, set<DomId>>, acc: seq<DomId>): Sorted
    requires Keyed(keys, sets)
    decreases |keys|
  {
    if keys == [] then Sorted(Ok(Reversed(acc)), sets)
    else
      var i := FirstReady(keys, sets);
      if i == |keys| then Sorted(Err(DepsLoop(Remaining(keys, sets))), sets)
      else
        var rest := RemoveAt(keys, i);
        Run(rest, Strip(sets, rest, keys[i]), acc + [keys[i]])
  }

  /** The whole of `get_suspend_order(deps)`. */
  function SuspendOrder(g: Deps): Sorted
    requires ValidDeps(g)
  {
    Run(g.keys, g.sets, [])
  }

  /**
   A safe suspend order for g: every key exactly once, every provider is a
   key, and a domain comes before every domain it depends on.
   */
  ghost predicate IsSuspendOrder(g: Deps, o: seq<DomId>)
    requires ValidDeps(g)
  {
    && NoDups(o)
    && Elems(o) == Elems(g.keys)
    && (forall i :: 0 <= i < |o| ==> g.sets[o[i]] <= Elems(o))
    && (forall i, j :: 0 <= i < |o| && 0 <= j < |o| && o[j] in g.sets[o[i]] ==> i < j)
  }

  /**
   The state in which the sort raises: the working dict still holds keys, each
   of them with a non-empty set, and each set is the original one minus the
   keys already removed.
   */
  ghost predicate Stuck(g: Deps, rem: Deps)
    requires ValidDeps(g)
  {
    && ValidDeps(rem)
    && rem.keys != []
    && Elems(rem.keys) <= Elems(g.keys)
    && forall a :: a in rem.sets ==>
         rem.sets[a] != {} && rem.sets[a] == g.sets[a] - (Elems(g.keys) - Elems(rem.keys))
  }

  /** `get_suspend_order`, as the source runs it on a shallow copy of the dict. */
  method GetSuspendOrder(deps: Deps) returns (order: Result<seq<DomId>>, shared: map<DomId, set<DomId>>)
    requires ValidDeps(deps)
    ensures Sorted(order, shared) == SuspendOrder(deps)
    ensures order.Ok? ==> IsSuspendOrder(deps, order.value)
    ensures order.Ok? <==> exists o :: IsSuspendOrder(deps, o)
    ensures order.Err? ==> order.error.DepsLoop? && Stuck(deps, order.error.remaining)
  {
    var ret: seq<DomId> := [];
    var keys := deps.keys;
    shared := deps.sets;
    while |keys| > 0
      invariant Keyed(keys, shared)
      invariant Run(keys, shared, ret) == SuspendOrder(deps)
      decreases |keys|
    {
      var i := 0;
      while i < |keys| && shared[keys[i]] != {}
        invariant 0 <= i <= FirstReady(keys, shared)
      {
        i := i + 1;
      }
      assert i == FirstReady(keys, shared);
      if i == |keys| {
        order := Err(DepsLoop(Remaining(keys, shared)));
        SuspendOrderSpec(deps);
        return;
      }
      var k := keys[i];
      ret := ret + [k];
      keys := RemoveAt(keys, i);
      shared := StripAll(shared, keys, k);
    }
    ret := Reversed(ret);
    order := Ok(ret);
    SuspendOrderSpec(deps);
  }

  /** The loop `for _, v1 in deps.items(): if k in v1: v1.remove(k)` over the working dict. */
  method StripAll(sets: map<DomId, set<DomId>>, keys: seq<DomId>, k: DomId) returns (shared: map<DomId, set<DomId>>)
    requires Keyed(keys, sets)
    ensures shared == Strip(sets, keys, k)
  {
    shared := sets;
    var j := 0;
    assert keys[..0] == [];
    while j < |keys|
      invariant 0 <= j <= |keys|
      invariant shared == Strip(sets, keys[..j], k)
    {
      var a := keys[j];
      StripStep(sets, keys, j, k);
      if k in shared[a] {
        shared := shared[a := shared[a] - {k}];
      } else {
        assert shared[a] - {k} == shared[a];
        assert shared == shared[a := shared[a] - {k}];
      }
      j := j + 1;
    }
    assert keys[..j] == keys;
  }

  /** The invariant of the passes, relative to the caller's original dict g. */
  ghost predicate Progress(g: Deps, keys: seq<DomId>, sets: map<DomId, set<DomId>>, acc: seq<DomId>)
    requires ValidDeps(g)
  {
    && NoDups(keys) && NoDups(acc) && Elems(keys) !! Elems(acc)
    && Elems(keys) + Elems(acc) == Elems(g.keys)
    && sets.Keys == g.sets.Keys
    && (forall a :: a in keys ==> sets[a] == g.sets[a] - Elems(acc))
    && (forall i :: 0 <= i < |acc| ==> sets[acc[i]] == {} && g.sets[acc[i]] <= Elems(acc[..i]))
  }

  lemma ProgressStep(g: Deps, keys: seq<DomId>, sets: map<DomId, set<DomId>>, acc: seq<DomId>, i: nat)
    requires ValidDeps(g) && Progress(g, keys, sets, acc)
    requires i < |keys| && sets[keys[i]] == {}
    ensures Keyed(keys, sets)
    ensures Progress(g, RemoveAt(keys, i), Strip(sets, RemoveAt(keys, i), keys[i]), acc + [keys[i]])
  {
    RestStep(g, keys, sets, acc, i);
    AccStep(g, Strip(sets, RemoveAt(keys, i), keys[i]), acc, keys[i]);
  }

  /** Removing a ready key: the remaining keys and their sets keep the invariant against the longer prefix. */
  lemma RestStep(g: Deps, keys: seq<DomId>, sets: map<DomId, set<DomId>>, acc: seq<DomId>, i: nat)
    requires ValidDeps(g) && Progress(g, keys, sets, acc)
    requires i < |keys| && sets[keys[i]] == {}
    ensures Keyed(keys, sets)
    ensures var k := keys[i]; var rest := RemoveAt(keys, i); var sets' := Strip(sets, rest, k);
      && NoDups(rest) && Elems(rest) !! Elems(acc + [k])
      && Elems(rest) + Elems(acc + [k]) == Elems(g.keys)
      && sets'.Keys == g.sets.Keys
      && (forall a :: a in rest ==> sets'[a] == g.sets[a] - Elems(acc + [k]))
      && k !in Elems(acc) && k in sets' && sets'[k] == {} && k in g.sets && g.sets[k] <= Elems(acc)
      && (forall p :: 0 <= p < |acc| ==> acc[p] in sets' && sets'[acc[p]] == {})
  {
    var k := keys[i];
    var rest := RemoveAt(keys, i);
    var sets' := Strip(sets, rest, k);
    RemoveAtElems(keys, i);
    assert k in Elems(keys);
    assert Elems(acc + [k]) == Elems(acc) + {k} by {
      ElemsAppend(acc, [k]);
      assert Elems([k]) == {k};
    }
    forall p | 0 <= p < |acc| ensures acc[p] in sets' && sets'[acc[p]] == {} {
      assert acc[p] in Elems(acc);
    }
  }

  /** Appending a ready domain to the finished prefix keeps it repeat-free and provider-closed. */
  lemma AccStep(g: Deps, sets': map<DomId, set<DomId>>, acc: seq<DomId>, k: DomId)
    requires NoDups(acc) && k !in Elems(acc)
    requires k in sets' && sets'[k] == {} && k in g.sets && g.sets[k] <= Elems(acc)
    requires forall p :: 0 <= p < |acc| ==> acc[p] in sets' && sets'[acc[p]] == {}
    requires forall p :: 0 <= p < |acc| ==> acc[p] in g.sets && g.sets[acc[p]] <= Elems(acc[..p])
    ensures NoDups(acc + [k])
    ensures forall p :: 0 <= p < |acc + [k]| ==>
      sets'[(acc + [k])[p]] == {} && g.sets[(acc + [k])[p]] <= Elems((acc + [k])[..p])
  {
    var acc' := acc + [k];
    assert NoDups(acc') by {
      forall p, q | 0 <= p < q < |acc'| ensures acc'[p] != acc'[q] {
        if q == |acc| {
          assert acc[p] in Elems(acc);
        }
      }
    }
    forall p | 0 <= p < |acc'|
      ensures sets'[acc'[p]] == {} && g.sets[acc'[p]] <= Elems(acc'[..p])
    {
      assert acc'[..p] == if p < |acc| then acc[..p] else acc;
    }
  }

  /** The passes end in a safe order with all shared sets emptied, or raise in a Stuck state. */
  lemma {:induction false} RunSound(g: Deps, keys: seq<DomId>, sets: map<DomId, set<DomId>>, acc: seq<DomId>)
    requires ValidDeps(g) && Progress(g, keys, sets, acc)
    requires Keyed(keys, sets)
    ensures var s := Run(keys, sets, acc);
      && s.shared.Keys == g.sets.Keys
      && (s.order.Ok? ==> IsSuspendOrder(g, s.order.value))
      && (s.order.Ok? ==> forall a :: a in s.shared ==> s.shared[a] == {})
      && (s.order.Err? ==> s.order.error.DepsLoop? && Stuck(g, s.order.error.remaining))
      && (s.order.Err? ==> forall a :: a in s.shared ==>
            s.shared[a] == if a in s.order.error.remaining.sets then s.order.error.remaining.sets[a] else {})
    decreases |keys|
  {
    if keys == [] {
      FinishedIsSuspendOrder(g, sets, acc);
    } else {
      var i := FirstReady(keys, sets);
      if i == |keys| {
        StuckState(g, keys, sets, acc);
      } else {
        ProgressStep(g, keys, sets, acc, i);
        var rest := RemoveAt(keys, i);
        RunSound(g, rest, Strip(sets, rest, keys[i]), acc + [keys[i]]);
      }
    }
  }

  lemma FinishedIsSuspendOrder(g: Deps, sets: map<DomId, set<DomId>>, acc: seq<DomId>)
    requires ValidDeps(g) && Progress(g, [], sets, acc)
    ensures IsSuspendOrder(g, Reversed(acc))
    ensures forall a :: a in sets ==> sets[a] == {}
  {
    ReversedElems(acc);
    assert Elems(acc) == Elems(g.keys);
    FinishedClosed(g, sets, acc);
    assert RemovedAfterProviders(g, acc);
    FinishedOrdered(g, acc);
    forall a | a in sets ensures sets[a] == {} {
      assert a in Elems(acc);
      var p :| 0 <= p < |acc| && acc[p] == a;
    }
  }

  /** Providers of each removed key were removed before it. */
  ghost predicate RemovedAfterProviders(g: Deps, acc: seq<DomId>)
    requires ValidDeps(g)
  {
    forall i :: 0 <= i < |acc| ==> acc[i] in g.sets && g.sets[acc[i]] <= Elems(acc[..i])
  }

  lemma FinishedClosed(g: Deps, sets: map<DomId, set<DomId>>, acc: seq<DomId>)
    requires ValidDeps(g) && Progress(g, [], sets, acc)
    ensures forall i :: 0 <= i < |acc| ==> g.sets[Reversed(acc)[i]] <= Elems(acc)
  {
    var n := |acc|;
    forall i | 0 <= i < n ensures g.sets[Reversed(acc)[i]] <= Elems(acc) {
      var p := n - 1 - i;
      assert Reversed(acc)[i] == acc[p];
      assert g.sets[acc[p]] <= Elems(acc[..p]);
      forall x | x in Elems(acc[..p]) ensures x in Elems(acc) {
        var m :| 0 <= m < p && acc[..p][m] == x;
        assert acc[m] == x;
      }
    }
  }

  lemma FinishedOrdered(g: Deps, acc: seq<DomId>)
    requires ValidDeps(g) && NoDups(acc) && RemovedAfterProviders(g, acc)
    ensures var o := Reversed(acc);
      forall i, j :: 0 <= i < |o| && 0 <= j < |o| && o[j] in g.sets[o[i]] ==> i < j
  {
    var n := |acc|;
    var o := Reversed(acc);
    forall i, j | 0 <= i < n && 0 <= j < n && o[j] in g.sets[o[i]] ensures i < j {
      var p, q := n - 1 - i, n - 1 - j;
      assert o[i] == acc[p] && o[j] == acc[q];
      ProviderRemovedEarlier(g, acc, p, q);
    }
  }

  lemma ProviderRemovedEarlier(g: Deps, acc: seq<DomId>, p: nat, q: nat)
    requires ValidDeps(g) && NoDups(acc) && RemovedAfterProviders(g, acc)
    requires p < |acc| && q < |acc| && acc[q] in g.sets[acc[p]]
    ensures q < p
  {
    assert acc[q] in Elems(acc[..p]);
    var m :| 0 <= m < p && acc[..p][m] == acc[q];
    assert acc[m] == acc[q];
  }

  lemma StuckState(g: Deps, keys: seq<DomId>, sets: map<DomId, set<DomId>>, acc: seq<DomId>)
    requires ValidDeps(g) && Progress(g, keys, sets, acc) && keys != []
    requires Keyed(keys, sets)
    requires FirstReady(keys, sets) == |keys|
    ensures Stuck(g, Remaining(keys, sets))
    ensures forall a :: a in sets ==>
      sets[a] == if a in Remaining(keys, sets).sets then Remaining(keys, sets).sets[a] else {}
  {
    var rem := Remaining(keys, sets);
    assert rem.sets.Keys == Elems(keys);
    assert Elems(g.keys) - Elems(keys) == Elems(acc);
    forall a | a in rem.sets ensures rem.sets[a] != {} {
      var p :| 0 <= p < |keys| && keys[p] == a;
    }
    forall a | a in sets && a !in rem.sets ensures sets[a] == {} {
      assert a in Elems(acc);
      var p :| 0 <= p < |acc| && acc[p] == a;
    }
  }

  /**
   A suspend order of the remaining keys read backwards: every domain comes
   after all of its remaining providers.
   */
  ghost predicate ProvidersFirst(keys: seq<DomId>, sets: map<DomId, set<DomId>>, r: seq<DomId>)
  {
    && NoDups(r) && Elems(r) == Elems(keys)
    && Keyed(r, sets)
    && (forall i :: 0 <= i < |r| ==> sets[r[i]] <= Elems(r[..i]))
  }

  lemma ProvidersFirstStep(keys: seq<DomId>, sets: map<DomId, set<DomId>>, r: seq<DomId>, i: nat)
    requires NoDups(keys) && ProvidersFirst(keys, sets, r) && i < |keys|
    ensures var rest := RemoveAt(keys, i);
      exists r' :: ProvidersFirst(rest, Strip(sets, rest, keys[i]), r')
  {
    var k := keys[i];
    var rest := RemoveAt(keys, i);
    var sets' := Strip(sets, rest, k);
    RemoveAtElems(keys, i);
    assert k in Elems(r);
    var p :| 0 <= p < |r| && r[p] == k;
    var r' := RemoveAt(r, p);
    RemoveAtElems(r, p);
    forall q | 0 <= q < |r'| ensures sets'[r'[q]] <= Elems(r'[..q]) {
      if q < p {
        assert r'[q] == r[q] && r'[..q] == r[..q];
      } else {
        assert r'[q] == r[q + 1];
        forall x | x in sets'[r'[q]] ensures x in Elems(r'[..q]) {
          assert r'[q] in Elems(r');
          assert x in Elems(r[..q + 1]) && x != k;
          var m :| 0 <= m < q + 1 && r[m] == x;
          if m < p {
            assert r'[..q][m] == x;
          } else {
            assert m != p;
            assert r'[..q][m - 1] == x;
          }
        }
      }
    }
    assert ProvidersFirst(rest, sets', r');
  }

  /** When the remaining keys admit a safe order, the passes never raise. */
  lemma {:induction false} RunComplete(keys: seq<DomId>, sets: map<DomId, set<DomId>>, acc: seq<DomId>, r: seq<DomId>)
    requires NoDups(keys) && ProvidersFirst(keys, sets, r)
    requires Keyed(keys, sets)
    ensures Run(keys, sets, acc).order.Ok?
    decreases |keys|
  {
    if keys != [] {
      assert keys[0] in Elems(r);
      assert |r| > 0 && sets[r[0]] == {} by {
        assert r[..0] == [];
      }
      assert r[0] in Elems(keys);
      var m :| 0 <= m < |keys| && keys[m] == r[0];
      var i := FirstReady(keys, sets);
      assert i <= m;
      ProvidersFirstStep(keys, sets, r, i);
      var rest := RemoveAt(keys, i);
      var r' :| ProvidersFirst(rest, Strip(sets, rest, keys[i]), r');
      RemoveAtElems(keys, i);
      RunComplete(rest, Strip(sets, rest, keys[i]), acc + [keys[i]], r');
    }
  }

  /** Every safe suspend order, read backwards, puts providers first. */
  lemma SuspendOrderReversed(g: Deps, o: seq<DomId>)
    requires ValidDeps(g) && IsSuspendOrder(g, o)
    ensures ProvidersFirst(g.keys, g.sets, Reversed(o))
  {
    var n := |o|;
    var r := Reversed(o);
    ReversedElems(o);
    forall i | 0 <= i < n ensures g.sets[r[i]] <= Elems(r[..i]) {
      forall b | b in g.sets[r[i]] ensures b in Elems(r[..i]) {
        ProviderEarlier(g, o, r, i, b);
      }
    }
  }

  /** In the reversed order a provider of the i-th domain comes before it. */
  lemma ProviderEarlier(g: Deps, o: seq<DomId>, r: seq<DomId>, i: nat, b: DomId)
    requires ValidDeps(g) && IsSuspendOrder(g, o)
    requires |r| == |o| && forall k :: 0 <= k < |o| ==> r[k] == o[|o| - 1 - k]
    requires i < |o| && b in g.sets[r[i]]
    ensures b in Elems(r[..i])
  {
    var n := |o|;
    assert r[i] == o[n - 1 - i];
    assert b in Elems(o);
    var j :| 0 <= j < n && o[j] == b;
    assert n - 1 - i < j;
    assert r[..i][n - 1 - j] == b;
  }

  /**
   The contract of `get_suspend_order`: it returns exactly when the dict
   admits a safe suspend order, and then returns one and leaves every inner
   set of the caller's dict empty; otherwise it raises with the Stuck
   remainder, and the caller's sets are the remainder's (emptied for keys
   already removed).
   */
  lemma SuspendOrderSpec(g: Deps)
    requires ValidDeps(g)
    ensures var s := SuspendOrder(g);
      && (s.order.Ok? ==> IsSuspendOrder(g, s.order.value))
      && (s.order.Ok? <==> exists o :: IsSuspendOrder(g, o))
      && (s.order.Ok? ==> forall a :: a in s.shared ==> s.shared[a] == {})
      && (s.order.Err? ==> s.order.error.DepsLoop? && Stuck(g, s.order.error.remaining))
      && (s.order.Err? ==> forall a :: a in s.shared ==>
            s.shared[a] == if a in s.order.error.remaining.sets then s.order.error.remaining.sets[a] else {})
  {
    assert Progress(g, g.keys, g.sets, []);
    RunSound(g, g.keys, g.sets, []);
    if o :| IsSuspendOrder(g, o) {
      SuspendOrderReversed(g, o);
      RunComplete(g.keys, g.sets, [], Reversed(o));
    }
  }

  /**
   A successful sort rules out the cases the loop check exists for: a domain
   serving its own backends, two domains serving each other, and a provider
   that is not a listed domain.
   */
  lemma SortedHasNoLoops(g: Deps)
    requires ValidDeps(g)
    ensures SuspendOrder(g).order.Ok? ==>
      && (forall a :: a in g.sets ==> a !in g.sets[a])
      && (forall a, b :: a in g.sets && b in g.sets[a] ==> b in g.sets)
      && (forall a, b :: a in g.sets && b in g.sets[a] && b in g.sets ==> a !in g.sets[b])
  {
    SuspendOrderSpec(g);
    if SuspendOrder(g).order.Ok? {
      var o := SuspendOrder(g).order.value;
      forall a, b | a in g.sets && b in g.sets[a] ensures b in g.sets && b != a && (b in g.sets ==> a !in g.sets[b]) {
        assert a in Elems(o);
        var i :| 0 <= i < |o| && o[i] == a;
        assert b in Elems(o);
        var j :| 0 <= j < |o| && o[j] == b;
        assert i < j;
      }
    }
  }

  /** `c[0]` depends on `c[1]`, which depends on `c[2]`, and so on. */
  ghost predicate DependencyChain(g: Deps, c: seq<DomId>)
  {
    forall i :: 0 <= i < |c| - 1 ==> c[i] in g.sets && c[i + 1] in g.sets[c[i]]
  }

  /**
   In a safe suspend order a domain comes before every domain it depends on
   through any chain of backends (in particular before dom0 when it relies on
   dom0 indirectly).
   */
  lemma {:induction false} ChainOrdered(g: Deps, o: seq<DomId>, c: seq<DomId>)
    requires ValidDeps(g) && IsSuspendOrder(g, o)
    requires |c| >= 2 && DependencyChain(g, c)
    ensures forall i, j :: 0 <= i < |o| && 0 <= j < |o| && o[i] == c[0] && o[j] == c[|c| - 1] ==> i < j
  {
    forall i, j | 0 <= i < |o| && 0 <= j < |o| && o[i] == c[0] && o[j] == c[|c| - 1] ensures i < j {
      assert c[1] in g.sets[o[i]];
      assert c[1] in Elems(o);
      var m :| 0 <= m < |o| && o[m] == c[1];
      assert i < m;
      if |c| > 2 {
        var c' := c[1..];
        assert DependencyChain(g, c') by {
          forall p | 0 <= p < |c'| - 1 ensures c'[p] in g.sets && c'[p + 1] in g.sets[c'[p]] {
            assert c'[p] == c[p + 1] && c'[p + 1] == c[p + 2];
          }
        }
        ChainOrdered(g, o, c');
        assert o[m] == c'[0] && o[j] == c'[|c'| - 1];
      }
    }
  }

  /**
   The resume order, `reversed(get_suspend_order(deps))`, brings every
   provider up before the domains that depend on it.
   */
  lemma ResumeProvidersFirst(g: Deps, o: seq<DomId>)
    requires ValidDeps(g) && IsSuspendOrder(g, o)
    ensures var r := Reversed(o);
      forall i, j :: 0 <= i < |r| && 0 <= j < |r| && r[j] in g.sets[r[i]] ==> j < i
  {
    var n := |o|;
    var r := Reversed(o);
    forall i, j | 0 <= i < n && 0 <= j < n && r[j] in g.sets[r[i]] ensures j < i {
      assert r[i] == o[n - 1 - i] && r[j] == o[n - 1 - j];
    }
  }

  /** The dict of `test_suspend_order` (its lists read as sets). */
  function TestDeps(): Deps
  {
    Deps([0, 1, 2, 3, 4, 5, 6],
         map[0 := {}, 1 := {0}, 2 := {1, 0}, 3 := {0, 1}, 4 := {1, 0, 3}, 5 := {1, 0, 3, 2, 6}, 6 := {0, 4}])
  }

  lemma TestDepsValid()
    ensures ValidDeps(TestDeps()) && Elems(TestDeps().keys) == {0, 1, 2, 3, 4, 5, 6}
  {
    var g := TestDeps();
    assert Elems(g.keys) == {0, 1, 2, 3, 4, 5, 6};
  }

  /** The keys and sets of the test dict, one by one. */
  predicate HasTestSets(g: Deps)
  {
    && g.sets.Keys == {0, 1, 2, 3, 4, 5, 6}
    && g.sets[0] == {} && g.sets[1] == {0} && g.sets[2] == {1, 0} && g.sets[3] == {0, 1}
    && g.sets[4] == {1, 0, 3} && g.sets[5] == {1, 0, 3, 2, 6} && g.sets[6] == {0, 4}
  }

  lemma TestSets()
    ensures HasTestSets(TestDeps())
  {
    var g := TestDeps();
    assert g.sets[0] == {} && g.sets[1] == {0} && g.sets[2] == {1, 0} && g.sets[3] == {0, 1};
    assert g.sets[4] == {1, 0, 3} && g.sets[5] == {1, 0, 3, 2, 6} && g.sets[6] == {0, 4};
  }

  /** The list the first-ready rule yields on `TestDeps()` is a safe order. */
  lemma TestOrderIsSafe()
    ensures ValidDeps(TestDeps()) && IsSuspendOrder(TestDeps(), [5, 6, 4, 3, 2, 1, 0])
  {
    TestSets();
    TestDepsValid();
    TestOrderFacts();
    SafeOrderOf(TestDeps(), [5, 6, 4, 3, 2, 1, 0]);
  }

  lemma TestOrderFacts()
    ensures var o := [5, 6, 4, 3, 2, 1, 0];
      NoDups(o) && Elems(o) == {0, 1, 2, 3, 4, 5, 6}
  {
    assert Elems([5, 6, 4, 3, 2, 1, 0]) == {0, 1, 2, 3, 4, 5, 6};
  }

  /**
   The order 5, 6, 4, 3, 2, 1, 0 is safe for any dict with the keys and sets
   of the test dict: each domain's providers all come later in the list.
   */
  lemma SafeOrderOf(g: Deps, o: seq<DomId>)
    requires ValidDeps(g) && HasTestSets(g)
    requires NoDups(o) && Elems(o) == {0, 1, 2, 3, 4, 5, 6} && |o| == 7
    requires o[0] == 5 && o[1] == 6 && o[2] == 4 && o[3] == 3 && o[4] == 2 && o[5] == 1 && o[6] == 0
    ensures IsSuspendOrder(g, o)
  {
    forall i | 0 <= i < |o| ensures g.sets[o[i]] <= Elems(o) {
      assert o[i] in Elems(o);
    }
    forall i, j | 0 <= i < |o| && 0 <= j < |o| && o[j] in g.sets[o[i]] ensures i < j {
      assert i in {0, 1, 2, 3, 4, 5, 6} && j in {0, 1, 2, 3, 4, 5, 6};
    }
  }

  /** Every safe order of the test dict starts with 5, which needs all others, and ends with 0. */
  lemma TestOrderShape(o: seq<DomId>)
    requires ValidDeps(TestDeps()) && IsSuspendOrder(TestDeps(), o)
    ensures |o| == 7 && o[0] == 5 && o[6] == 0
  {
    TestSets();
    ShapeOf(TestDeps(), o);
  }

  /**
   The facts about the test dict that fix the ends of a safe order: 5 needs
   every domain but 4, 6 needs 4 and 5 needs 6, and all but 0 need 0.
   */
  lemma ShapeOf(g: Deps, o: seq<DomId>)
    requires ValidDeps(g) && IsSuspendOrder(g, o) && HasTestSets(g)
    ensures |o| == 7 && o[0] == 5 && o[6] == 0
  {
    assert |o| == 7 by {
      NoDupsCard(o);
      assert |Elems(o)| == |{0, 1, 2, 3, 4, 5, 6}| == 7;
    }
    assert 5 in Elems(o) && 6 in Elems(o) && 0 in Elems(o);
    var i5 :| 0 <= i5 < 7 && o[i5] == 5;
    var i6 :| 0 <= i6 < 7 && o[i6] == 6;
    var i0 :| 0 <= i0 < 7 && o[i0] == 0;
    assert 6 in g.sets[o[i5]];
    forall j | 0 <= j < 7 ensures (o[j] == 5 || i5 < j) && (o[j] == 0 || j < i0) {
      assert o[j] in Elems(o);
      if o[j] == 4 {
        assert 4 in g.sets[o[i6]];
      }
      if o[j] != 0 {
        assert 0 in g.sets[o[j]];
      }
    }
  }

  /**
   `test_suspend_order`: the sort of the test dict returns, and what it returns
   respects every listed dependency, puts 5 first and 0 last.
   */
  lemma TestSuspendOrder()
    ensures ValidDeps(TestDeps())
    ensures var s := SuspendOrder(TestDeps()).order;
      s.Ok? && IsSuspendOrder(TestDeps(), s.value) && |s.value| == 7 && s.value[0] == 5 && s.value[6] == 0
  {
    TestOrderIsSafe();
    SuspendOrderSpec(TestDeps());
    TestOrderShape(SuspendOrder(TestDeps()).order.value);
  }

  /** Two domains serving each other: the sort raises with the whole dict as the remainder. */
  lemma MutualDependencyRaises()
    ensures var g := Deps([1, 2], map[1 := {2}, 2 := {1}]);
      SuspendOrder(g).order == Err(DepsLoop(g))
  {
    var g := Deps([1, 2], map[1 := {2}, 2 := {1}]);
    assert FirstReady(g.keys, g.sets) == 2;
    assert Remaining(g.keys, g.sets).sets == g.sets;
  }
}
