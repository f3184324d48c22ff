/**
 The hierarchical control-plane store (xenstore) as the core sees it: a
 snapshot mapping each existing path to its value and the names of its
 children. Reading or listing a missing path raises, as the client does.
 Paths, names and values are byte strings, written as `string` values whose
 characters stand for single bytes.
 */
module XenStore {
  import opened Common

  datatype Node = Node(value: string, children: seq<string>)

  type Store = map<string, Node>

  /** `client.list(path)`. */
  function List(st: Store, path: string): (r: Result<seq<string>>)
    ensures r.Ok? <==> path in st
    ensures r.Ok? ==> r.value == st[path].children
    ensures r.Err? ==> r.error == NoSuchNode(path)
  {
    if path in st then Ok(st[path].children) else Err(NoSuchNode(path))
  }

  /** `client[path]`. */
  function Read(st: Store, path: string): (r: Result<string>)
    ensures r.Ok? <==> path in st
    ensures r.Ok? ==> r.value == st[path].value
    ensures r.Err? ==> r.error == NoSuchNode(path)
  {
    if path in st then Ok(st[path].value) else Err(NoSuchNode(path))
  }

  /** `path + b"/" + name`. */
  function Child(path: string, name: string): string
  {
    path + "/" + name
  }
}
