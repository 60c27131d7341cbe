/** The in-memory map from the hash of a local file to its path. */
module LocalFiles {
  import opened Basics

  /** transfer.LocalIndex. */
  class LocalIndex {
    var index: map<Id, string>

    constructor ()
      ensures index == map[]
    {
      index := map[];
    }

    /** Add hashes the file; a file that cannot be read is an error. */
    method Add(hash: Bytes -> Id, path: string, content: Option<Bytes>) returns (ok: bool)
      modifies this
      ensures ok == content.Some?
      ensures index == if ok then old(index)[hash(content.value) := path] else old(index)
    {
      ok := content.Some?;
      if ok {
        index := index[hash(content.value) := path];
      }
    }

    method Remove(id: Id)
      modifies this
      ensures index == old(index) - {id}
    {
      index := index - {id};
    }

    method Lookup(id: Id) returns (r: Option<string>)
      ensures r.Some? <==> id in index
      ensures r.Some? ==> r.value == index[id]
    {
      r := if id in index then Some(index[id]) else None;
    }
  }
}
