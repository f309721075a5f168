/** memory.js: MemoryCache, a plain in-process store.

    The instance keeps `_queues`, a nested dictionary type -> id -> payload.
    The class is self-contained: it does not extend the envelope, has no TTL
    and offers only store, get, clear and remove. The optional callback each
    operation takes is called once with no error after the mutation; here
    every operation simply returns (see README). */
module Memory {
  import opened Wrappers
  import opened Json

  type Queues = map<string, map<string, Json>>

  /** The map a type currently holds, or `undefined` (None) when it was never
      stored or was cleared. */
  function Lookup(q: Queues, t: string): Option<map<string, Json>>
  {
    if t in q then Some(q[t]) else None
  }

  /** store: create the type map lazily, then set (overwrite) the id. */
  function Stored(q: Queues, t: string, i: string, p: Json): (q': Queues)
    ensures t in q' && i in q'[t] && q'[t][i] == p
    ensures q'.Keys == q.Keys + {t}
  {
    var inner := if t in q then q[t] else map[];
    q[t := inner[i := p]]
  }

  /** clear: delete the type map, whether or not it exists. */
  function Cleared(q: Queues, t: string): (q': Queues)
    ensures t !in q' && q'.Keys == q.Keys - {t}
  {
    q - {t}
  }

  /** remove: delete the id within the type map; indexing a type that does
      not exist throws. */
  function Removed(q: Queues, t: string, i: string): (res: Result<Queues, string>)
    ensures res.Err? <==> t !in q
    ensures res.Ok? ==> t in res.value && i !in res.value[t] && res.value.Keys == q.Keys
  {
    if t !in q then Err("TypeError: Cannot convert undefined or null to object")
    else Ok(q[t := q[t] - {i}])
  }

  /** Storing overwrites exactly one id: every other id of the type keeps its
      payload, and a fresh type starts out holding that id alone. */
  lemma StoreOverwrites(q: Queues, t: string, i: string, p: Json)
    ensures forall j | j != i :: (j in Stored(q, t, i, p)[t] <==> t in q && j in q[t])
    ensures forall j | j != i && t in q && j in q[t] :: Stored(q, t, i, p)[t][j] == q[t][j]
    ensures t !in q ==> Stored(q, t, i, p)[t] == map[i := p]
  {
  }

  /** store, clear and remove on one type leave every other type's map
      unchanged. */
  lemma OtherTypesUntouched(q: Queues, t: string, i: string, p: Json, u: string)
    requires u != t
    ensures Lookup(Stored(q, t, i, p), u) == Lookup(q, u)
    ensures Lookup(Cleared(q, t), u) == Lookup(q, u)
    ensures Removed(q, t, i).Ok? ==> Lookup(Removed(q, t, i).value, u) == Lookup(q, u)
  {
  }

  /** After clear, get answers `undefined`; clearing twice is clearing once,
      and clearing an absent type changes nothing. */
  lemma ClearProperties(q: Queues, t: string)
    ensures Lookup(Cleared(q, t), t) == None
    ensures Cleared(Cleared(q, t), t) == Cleared(q, t)
    ensures t !in q ==> Cleared(q, t) == q
  {
  }

  /** remove deletes only the id: it is a no-op when the id is absent, other
      ids keep their payloads, and it is idempotent. */
  lemma RemoveProperties(q: Queues, t: string, i: string)
    requires t in q
    ensures i !in q[t] ==> Removed(q, t, i) == Ok(q)
    ensures forall j | j != i :: (j in Removed(q, t, i).value[t] <==> j in q[t])
    ensures forall j | j != i && j in q[t] :: Removed(q, t, i).value[t][j] == q[t][j]
    ensures Removed(Removed(q, t, i).value, t, i) == Removed(q, t, i)
  {
    var q' := q[t := q[t] - {i}];
    if i !in q[t] {
      assert q[t] - {i} == q[t];
      assert q' == q;
    }
    assert q'[t] - {i} == q'[t];
    assert q'[t := q'[t] - {i}] == q';
  }

  /** Store then remove of a fresh id in an existing type restores the type
      map. */
  lemma StoreRemoveRoundTrip(q: Queues, t: string, i: string, p: Json)
    requires t in q && i !in q[t]
    ensures Removed(Stored(q, t, i, p), t, i) == Ok(q)
  {
    var q1 := Stored(q, t, i, p);
    assert q1 == q[t := q[t][i := p]];
    assert q1[t] - {i} == q[t];
    assert q1[t := q[t]] == q;
  }

  /** The usage the memory tests walk through, on the operations the class
      does have: two stores, a remove, a clear. */
  lemma Walkthrough(p1: Json, p2: Json)
    ensures
      var q1 := Stored(Stored(map[], "TestType", "1", p1), "TestType", "2", p2);
      var q2 := Removed(q1, "TestType", "1");
      && Lookup(q1, "TestType") == Some(map["1" := p1, "2" := p2])
      && q2.Ok? && Lookup(q2.value, "TestType") == Some(map["2" := p2])
      && Lookup(Cleared(q2.value, "TestType"), "TestType") == None
      && Removed(Cleared(q2.value, "TestType"), "TestType", "2").Err?
  {
    var q1 := Stored(Stored(map[], "TestType", "1", p1), "TestType", "2", p2);
    assert q1["TestType"] == map["1" := p1, "2" := p2];
    assert q1["TestType"] - {"1"} == map["2" := p2];
  }

  class MemoryCache {
    /** `_queues`. */
    var queues: Queues

    constructor ()
      ensures queues == map[]
    {
      queues := map[];
    }

    method Store(t: string, i: string, p: Json)
      modifies this
      ensures queues == Stored(old(queues), t, i, p)
    {
      var inner := if t in queues then queues[t] else map[];
      queues := queues[t := inner];
      queues := queues[t := queues[t][i := p]];
    }

    /** get: the current map of the type, or `undefined`; changes nothing. */
    method Get(t: string) returns (r: Option<map<string, Json>>)
      ensures r.Some? <==> t in queues
      ensures r.Some? ==> r.value == queues[t]
    {
      r := if t in queues then Some(queues[t]) else None;
    }

    method Clear(t: string)
      modifies this
      ensures queues == Cleared(old(queues), t)
    {
      queues := queues - {t};
    }

    /** remove: throws, changing nothing, when the type map is missing. */
    method Remove(t: string, i: string) returns (r: Result<(), string>)
      modifies this
      ensures r.Err? <==> t !in old(queues)
      ensures r.Err? ==> queues == old(queues)
      ensures r.Ok? ==> Removed(old(queues), t, i) == Ok(queues)
    {
      if t !in queues {
        return Err("TypeError: Cannot convert undefined or null to object");
      }
      queues := queues[t := queues[t] - {i}];
      r := Ok(());
    }
  }
}
