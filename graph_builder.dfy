/**
 Building the dependency graph from the store: which domains exist, and for
 each one which domains serve the backends of its devices.
 */
module GraphBuilder {
  import opened Common
  import opened Decimal
  import opened XenStore

  /** The directory whose children are the running domains. */
  const DomainsPath: string := "/local/domain"

  /** `[int(x) for x in names]`: the first name that is not a number raises. */
  function ParseIds(names: seq<string>): (r: Result<seq<DomId>>)
    ensures r.Ok? <==> forall i :: 0 <= i < |names| ==> ParseInt(names[i]).Some?
    ensures r.Ok? ==> |r.value| == |names|
    ensures r.Ok? ==> forall i :: 0 <= i < |names| ==> ParseInt(names[i]) == Some(r.value[i])
    ensures r.Err? ==> exists i :: 0 <= i < |names| && r.error == NotAnInteger(names[i])
                                   && ParseInt(names[i]) == None
                                   && forall j :: 0 <= j < i ==> ParseInt(names[j]).Some?
  {
    if names == [] then Ok([])
    else match ParseInt(names[0])
      case None => Err(NotAnInteger(names[0]))
      case Some(id) =>
        var rest :- ParseIds(names[1..]);
        assert forall i :: 1 <= i < |names| ==> names[i] == names[1..][i - 1];
        Ok([id] + rest)
  }

  /** `get_domain_ids`: the ids listed under /local/domain, in listing order. */
  function DomainIds(st: Store): (r: Result<seq<DomId>>)
    ensures r.Ok? <==> DomainsPath in st
                        && forall i :: 0 <= i < |st[DomainsPath].children| ==>
                             ParseInt(st[DomainsPath].children[i]).Some?
    ensures r.Ok? ==> |r.value| == |st[DomainsPath].children|
    ensures r.Ok? ==> forall i :: 0 <= i < |r.value| ==>
                        ParseInt(st[DomainsPath].children[i]) == Some(r.value[i])
  {
    var names :- List(st, DomainsPath);
    ParseIds(names)
  }

  /** `/libxl/{domid}`: the toolstack's record of a domain. */
  function LibxlPath(domid: DomId): string
  {
    "/libxl/" + IntToString(domid)
  }

  /** The backend domain of one device: `int(c[c[dev + "/frontend"] + "/backend-id"])`. */
  function DeviceBackend(st: Store, devPath: string): Result<DomId>
  {
    var frontend :- Read(st, Child(devPath, "frontend"));
    var text :- Read(st, Child(frontend, "backend-id"));
    match ParseInt(text)
    case None => Err(NotAnInteger(text))
    case Some(b) => Ok(b)
  }

  /** Both results on success, otherwise the first failure. */
  function Concat(a: Result<set<DomId>>, b: Result<set<DomId>>): Result<set<DomId>>
  {
    if a.Err? then a else if b.Err? then b else Ok(a.value + b.value)
  }

  lemma ConcatUnit(r: Result<set<DomId>>)
    ensures Concat(Ok({}), r) == r
  {
    if r.Ok? {
      assert {} + r.value == r.value;
    }
  }

  lemma ConcatShift(acc: set<DomId>, b: DomId, devices: Result<set<DomId>>, types: Result<set<DomId>>)
    ensures Concat(Ok(acc), Concat(Concat(Ok({b}), devices), types))
            == Concat(Ok(acc + {b}), Concat(devices, types))
  {
    if devices.Ok? && types.Ok? {
      assert acc + (({b} + devices.value) + types.value) == (acc + {b}) + (devices.value + types.value);
    }
  }

  /** Backends of the devices listed in one device-type directory, in listing order. */
  function DevicesBackends(st: Store, typePath: string, devices: seq<string>): Result<set<DomId>>
  {
    if devices == [] then Ok({})
    else
      var b :- DeviceBackend(st, Child(typePath, devices[0]));
      Concat(Ok({b}), DevicesBackends(st, typePath, devices[1..]))
  }

  /** Backends of every device of every listed device type, in listing order. */
  function TypesBackends(st: Store, devRoot: string, types: seq<string>): Result<set<DomId>>
  {
    if types == [] then Ok({})
    else
      var devices :- List(st, Child(devRoot, types[0]));
      Concat(DevicesBackends(st, Child(devRoot, types[0]), devices), TypesBackends(st, devRoot, types[1..]))
  }

  /** What `get_backends(domid)` returns or raises. */
  function Backends(st: Store, domid: DomId): Result<set<DomId>>
  {
    var root := LibxlPath(domid);
    if root !in st then Ok({})
    else
      var types :- List(st, Child(root, "device"));
      TypesBackends(st, Child(root, "device"), types)
  }

  /** `get_backends`: nested loops over device types and devices, collecting backend ids. */
  method GetBackends(st: Store, domid: DomId) returns (r: Result<set<DomId>>)
    ensures r == Backends(st, domid)
  {
    var ret: set<DomId> := {};
    var path := LibxlPath(domid);
    if path !in st {
      return Ok({});
    }
    path := Child(path, "device");
    var devTypes := List(st, path);
    if devTypes.Err? {
      return Err(devTypes.error);
    }
    var types := devTypes.value;
    var i := 0;
    assert types[0..] == types;
    ConcatUnit(TypesBackends(st, path, types));
    while i < |types|
      invariant 0 <= i <= |types|
      invariant Backends(st, domid) == Concat(Ok(ret), TypesBackends(st, path, types[i..]))
    {
      assert types[i..][1..] == types[i + 1..];
      var typePath := Child(path, types[i]);
      var listed := List(st, typePath);
      if listed.Err? {
        return Err(listed.error);
      }
      var devices := listed.value;
      var j := 0;
      assert devices[0..] == devices;
      while j < |devices|
        invariant 0 <= j <= |devices|
        invariant Backends(st, domid)
                  == Concat(Ok(ret), Concat(DevicesBackends(st, typePath, devices[j..]),
                                            TypesBackends(st, path, types[i + 1..])))
      {
        assert devices[j..][1..] == devices[j + 1..];
        var backend := DeviceBackend(st, Child(typePath, devices[j]));
        if backend.Err? {
          return Err(backend.error);
        }
        ConcatShift(ret, backend.value, DevicesBackends(st, typePath, devices[j + 1..]),
                    TypesBackends(st, path, types[i + 1..]));
        ret := ret + {backend.value};
        j := j + 1;
      }
      ConcatUnit(TypesBackends(st, path, types[i + 1..]));
      i := i + 1;
    }
    return Ok(ret);
  }

  /** A device `t/dev` under `devRoot` whose frontend names backend domain b. */
  ghost predicate ResolvesTo(st: Store, devRoot: string, t: string, dev: string, b: DomId)
  {
    Child(devRoot, t) in st && dev in st[Child(devRoot, t)].children
    && DeviceBackend(st, Child(Child(devRoot, t), dev)) == Ok(b)
  }

  lemma {:induction false} DevicesBackendsMembers(st: Store, typePath: string, devices: seq<string>)
    ensures DevicesBackends(st, typePath, devices).Ok? ==>
      forall b :: b in DevicesBackends(st, typePath, devices).value <==>
        exists dev :: dev in devices && DeviceBackend(st, Child(typePath, dev)) == Ok(b)
  {
    if devices != [] {
      DevicesBackendsMembers(st, typePath, devices[1..]);
      assert forall dev :: dev in devices <==> dev == devices[0] || dev in devices[1..];
    }
  }

  lemma {:induction false} TypesBackendsMembers(st: Store, devRoot: string, types: seq<string>)
    ensures TypesBackends(st, devRoot, types).Ok? ==>
      forall b :: b in TypesBackends(st, devRoot, types).value <==>
        exists t, dev :: t in types && ResolvesTo(st, devRoot, t, dev, b)
  {
    if types != [] && TypesBackends(st, devRoot, types).Ok? {
      var t0 := types[0];
      TypesBackendsMembers(st, devRoot, types[1..]);
      var devices := st[Child(devRoot, t0)].children;
      DevicesBackendsMembers(st, Child(devRoot, t0), devices);
      assert forall t :: t in types <==> t == t0 || t in types[1..];
      forall b | b in TypesBackends(st, devRoot, types).value
        ensures exists t, dev :: t in types && ResolvesTo(st, devRoot, t, dev, b)
      {
        if b in DevicesBackends(st, Child(devRoot, t0), devices).value {
          var dev :| dev in devices && DeviceBackend(st, Child(Child(devRoot, t0), dev)) == Ok(b);
          assert ResolvesTo(st, devRoot, t0, dev, b);
        }
      }
      forall b, t, dev | t in types && ResolvesTo(st, devRoot, t, dev, b)
        ensures b in TypesBackends(st, devRoot, types).value
      {
        if t == t0 {
          assert dev in devices && DeviceBackend(st, Child(Child(devRoot, t0), dev)) == Ok(b);
        } else {
          assert t in types[1..];
        }
      }
    }
  }

  /**
   `get_backends` gives the empty set for a domain without a toolstack record;
   otherwise, when it returns, its set holds exactly the backend ids reached
   through the frontends of the listed devices.
   */
  lemma BackendsSpec(st: Store, domid: DomId)
    ensures LibxlPath(domid) !in st ==> Backends(st, domid) == Ok({})
    ensures LibxlPath(domid) in st && Backends(st, domid).Ok? ==>
      var devRoot := Child(LibxlPath(domid), "device");
      devRoot in st &&
      forall b :: b in Backends(st, domid).value <==>
        exists t, dev :: t in st[devRoot].children && ResolvesTo(st, devRoot, t, dev, b)
  {
    var devRoot := Child(LibxlPath(domid), "device");
    if LibxlPath(domid) in st && devRoot in st {
      TypesBackendsMembers(st, devRoot, st[devRoot].children);
    }
  }

  /** `dependencies[k] = v` on a Python dict: a new key goes last, an old one keeps its place. */
  function Assign(d: Deps, k: DomId, v: set<DomId>): (r: Deps)
    requires ValidDeps(d)
    ensures ValidDeps(r)
    ensures r.sets == d.sets[k := v]
    ensures k in d.sets ==> r.keys == d.keys
    ensures k !in d.sets ==> r.keys == d.keys + [k]
  {
    Deps(if k in d.sets then d.keys else d.keys + [k], d.sets[k := v])
  }

  /** `get_backends` on a fixed store, as a function of the domain id. */
  function BackendsIn(st: Store): DomId -> Result<set<DomId>>
  {
    d => Backends(st, d)
  }

  /** The dict obtained by assigning `backends(id)` to every id in turn. */
  function DepsOf(backends: DomId -> Result<set<DomId>>, ids: seq<DomId>, acc: Deps): (r: Result<Deps>)
    requires ValidDeps(acc)
    ensures r.Ok? ==> ValidDeps(r.value)
  {
    if ids == [] then Ok(acc)
    else
      var b :- backends(ids[0]);
      DepsOf(backends, ids[1..], Assign(acc, ids[0], b))
  }

  /** What `build_deps()` returns or raises. */
  function Dependencies(st: Store): (r: Result<Deps>)
    ensures r.Ok? ==> ValidDeps(r.value)
  {
    var ids :- DomainIds(st);
    DepsOf(BackendsIn(st), ids, Deps([], map[]))
  }

  /** `build_deps`: one `get_backends` per listed domain, stored under its id. */
  method BuildDeps(st: Store) returns (r: Result<Deps>)
    ensures r == Dependencies(st)
    ensures r.Ok? ==> ValidDeps(r.value)
  {
    var listed := DomainIds(st);
    if listed.Err? {
      return Err(listed.error);
    }
    var domains := listed.value;
    var dependencies := Deps([], map[]);
    for i := 0 to |domains|
      invariant ValidDeps(dependencies)
      invariant Dependencies(st) == DepsOf(BackendsIn(st), domains[i..], dependencies)
    {
      assert domains[i..][1..] == domains[i + 1..];
      var backends := GetBackends(st, domains[i]);
      if backends.Err? {
        return Err(backends.error);
      }
      dependencies := Assign(dependencies, domains[i], backends.value);
    }
    return Ok(dependencies);
  }

  lemma {:induction false} DepsOfOk(backends: DomId -> Result<set<DomId>>, ids: seq<DomId>, acc: Deps)
    requires ValidDeps(acc)
    ensures DepsOf(backends, ids, acc).Ok? <==> forall i :: 0 <= i < |ids| ==> backends(ids[i]).Ok?
  {
    if ids != [] {
      assert forall i :: 1 <= i < |ids| ==> ids[i] == ids[1..][i - 1];
      var b := backends(ids[0]);
      if b.Ok? {
        DepsOfOk(backends, ids[1..], Assign(acc, ids[0], b.value));
      }
    }
  }

  lemma {:induction false} DepsOfShape(backends: DomId -> Result<set<DomId>>, ids: seq<DomId>, acc: Deps, g: Deps)
    requires ValidDeps(acc) && DepsOf(backends, ids, acc) == Ok(g)
    ensures ValidDeps(g)
    ensures Elems(g.keys) == Elems(acc.keys) + Elems(ids)
    ensures forall d :: d in g.sets && d in Elems(ids) ==> backends(d) == Ok(g.sets[d])
    ensures forall d :: d in g.sets && d !in Elems(ids) ==> g.sets[d] == acc.sets[d]
  {
    if ids == [] {
      assert g == acc;
    } else {
      assert Elems(ids) == {ids[0]} + Elems(ids[1..]);
      var b := backends(ids[0]);
      DepsOfShape(backends, ids[1..], Assign(acc, ids[0], b.value), g);
    }
  }

  lemma {:induction false} DepsOfOrder(backends: DomId -> Result<set<DomId>>, ids: seq<DomId>, acc: Deps, g: Deps)
    requires ValidDeps(acc) && DepsOf(backends, ids, acc) == Ok(g)
    requires NoDups(ids) && Elems(acc.keys) !! Elems(ids)
    ensures g.keys == acc.keys + ids
  {
    if ids == [] {
      assert acc.keys + ids == acc.keys;
    } else {
      var x := ids[0];
      var acc' := Assign(acc, x, backends(x).value);
      assert acc'.keys == acc.keys + [x] && ValidDeps(acc') && NoDups(ids[1..])
          && Elems(acc'.keys) !! Elems(ids[1..]) && DepsOf(backends, ids[1..], acc') == Ok(g) by {
        NoDupsTail(ids);
        assert x in Elems(ids);
      }
      DepsOfOrder(backends, ids[1..], acc', g);
      assert ids == [x] + ids[1..];
      assert (acc.keys + [x]) + ids[1..] == acc.keys + ([x] + ids[1..]) by {
        AppendAssoc(acc.keys, [x], ids[1..]);
      }
    }
  }

  /** `build_deps` raises exactly when the listing or some listed domain's backends cannot be read. */
  lemma DependenciesOk(st: Store)
    ensures Dependencies(st).Ok? <==>
      DomainIds(st).Ok? && forall i :: 0 <= i < |DomainIds(st).value| ==> Backends(st, DomainIds(st).value[i]).Ok?
  {
    if DomainIds(st).Ok? {
      DepsOfOk(BackendsIn(st), DomainIds(st).value, Deps([], map[]));
    }
  }

  /**
   When it returns, `build_deps` maps exactly the listed domain ids, each to its
   backends; when the listing has no repeats the dict's order is the listing order.
   */
  lemma DependenciesShape(st: Store, ids: seq<DomId>, g: Deps)
    requires DomainIds(st) == Ok(ids) && Dependencies(st) == Ok(g)
    ensures ValidDeps(g)
    ensures Elems(g.keys) == Elems(ids)
    ensures forall d :: d in g.sets ==> Backends(st, d) == Ok(g.sets[d])
    ensures NoDups(ids) ==> g.keys == ids
  {
    var empty := Deps([], map[]);
    DepsOfShape(BackendsIn(st), ids, empty, g);
    if NoDups(ids) {
      DepsOfOrder(BackendsIn(st), ids, empty, g);
      assert empty.keys + ids == ids;
    }
  }
}
