/**
  The list multimap the view keeps its sub-jobs in: each key holds an
  ordered list of values, duplicates kept, and a key is present only
  while its list is non-empty.
*/
module Multimap {
  import opened Jenkins

  /** A list multimap from projects to projects. */
  type ListMultimap = map<Proj, seq<Proj>>

  /** The list under `k`; a key that is absent holds the empty list. */
  function Get(m: ListMultimap, k: Proj): seq<Proj>
  {
    if k in m then m[k] else []
  }

  /** No key holds an empty list. */
  predicate NoEmptyLists(m: ListMultimap)
  {
    forall k | k in m :: m[k] != []
  }

  /**
    Appends `vs` to the list under `k`. Appending nothing leaves the
    multimap as it is, and in particular adds no key.
  */
  function PutAll(m: ListMultimap, k: Proj, vs: seq<Proj>): (r: ListMultimap)
    ensures Get(r, k) == Get(m, k) + vs
    ensures forall j | j != k :: Get(r, j) == Get(m, j)
    ensures r.Keys == if vs == [] then m.Keys else m.Keys + {k}
    ensures NoEmptyLists(m) ==> NoEmptyLists(r)
  {
    if vs == [] then m else m[k := Get(m, k) + vs]
  }
}
