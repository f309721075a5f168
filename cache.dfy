/** The cache envelope of cache.js: the base class every backend extends.

    The envelope owns the TTL timer registry `_timeouts` (type -> id -> timer)
    and delegates data movement to the backend hooks `_store`, `_fetch`,
    `_list`, `_map`, `_remove` and `_clear`. Here the backend is an abstract
    map from (type, id) to payload, so the registry invariants hold whatever
    the concrete backend is.

    `_timeouts` is kept flat: `spaces` holds the types that have a
    `_timeouts[type]` object and `slots` maps (type, id) to the handle stored
    at `_timeouts[type][id]`.

    Node's timers are modelled explicitly: `setTimeout` hands out a fresh
    handle and records a pending `Timer` with its deadline and the arguments
    of the `remove(type, id)` call it will make; `clearTimeout` drops the
    handle from the pending set; `Tick(now)` advances the clock and fires every
    timer whose deadline has been reached. */
module Envelope {
  import opened Wrappers
  import opened Json
  import Collections

  // ------------------------------------------------------------- TTL setting

  /** Node clamps a setTimeout delay outside [1, 2^31 - 1] milliseconds to 1. */
  const MaxTimerDelay: int := 0x7FFF_FFFF

  function TimerDelay(ms: int): (d: int)
    ensures 1 <= d <= MaxTimerDelay
    ensures 1 <= ms <= MaxTimerDelay ==> d == ms
  {
    if 1 <= ms <= MaxTimerDelay then ms else 1
  }

  /** The constructor's `_ttl`: `features.ttl && config.ttl`, scaled from
      seconds to milliseconds when truthy. A configured ttl of 0 stands for an
      absent one; every falsy outcome is represented by 0 (TTL disabled). */
  function EffectiveTtl(featuresTtl: bool, configTtl: int): (ms: int)
    ensures ms != 0 <==> featuresTtl && configTtl != 0
    ensures ms != 0 ==> ms / 1000 == configTtl && ms % 1000 == 0
  {
    if featuresTtl && configTtl != 0 then configTtl * 1000 else 0
  }

  // ---------------------------------------------------------- timer registry

  type Handle = nat

  /** A (type, id) pair: the address of one cache entry. */
  type Key = (string, string)

  /** A pending setTimeout: when `due` is reached it calls remove(key.0, key.1). */
  datatype Timer = Timer(due: int, key: Key)

  /** `_timeouts` together with the runtime's pending timers and the next
      handle setTimeout will return. */
  datatype Registry = Registry(
    spaces: set<string>,
    slots: map<Key, Handle>,
    pending: map<Handle, Timer>,
    next: Handle)

  const NoTimers := Registry({}, map[], map[], 0)

  /** The pending timer registered for k, if any. */
  function TimerOf(r: Registry, k: Key): Option<Timer>
  {
    if k in r.slots && r.slots[k] in r.pending then Some(r.pending[r.slots[k]]) else None
  }

  /** Handles of the pending timers that will remove k. */
  function TimersFor(r: Registry, k: Key): set<Handle>
  {
    set h | h in r.pending && r.pending[h].key == k
  }

  /** The handles registered under type t, which clear cancels. */
  function TypeHandles(r: Registry, t: string): set<Handle>
  {
    set k | k in r.slots && k.0 == t :: r.slots[k]
  }

  /** Registry consistency, entry side: a registered entry lives in an
      existing namespace, and its handle is pending with a timer that removes
      exactly that entry. */
  ghost predicate Registered(r: Registry, k: Key) {
    k in r.slots ==>
      && k.0 in r.spaces
      && r.slots[k] in r.pending
      && r.pending[r.slots[k]].key == k
  }

  /** Registry consistency, handle side: a pending handle was handed out
      before and is the one registered for the entry its timer removes, so no
      timer is leaked and none is shared. */
  ghost predicate Tracked(r: Registry, h: Handle) {
    h in r.pending ==>
      && h < r.next
      && r.pending[h].key in r.slots
      && r.slots[r.pending[h].key] == h
  }

  /** Both sides, for every entry and every handle. */
  ghost predicate Wf(r: Registry) {
    && (forall k :: Registered(r, k))
    && (forall h :: Tracked(r, h))
  }

  /** Under Wf, at most one timer is pending for an entry: the registered one. */
  lemma TimersForRegistered(r: Registry, k: Key)
    requires Wf(r)
    ensures TimerOf(r, k).None? ==> TimersFor(r, k) == {}
    ensures TimerOf(r, k).Some? ==> TimersFor(r, k) == {r.slots[k]}
  {
    assert Registered(r, k);
    forall h | h in TimersFor(r, k) ensures TimerOf(r, k).Some? && h == r.slots[k] {
      assert Tracked(r, h);
    }
    if TimerOf(r, k).Some? {
      assert r.slots[k] in TimersFor(r, k);
    }
  }

  /** Under Wf, a pending handle sits in exactly one slot: its timer's. */
  lemma SoleSlot(r: Registry, h: Handle)
    requires Wf(r) && h in r.pending
    ensures r.pending[h].key in r.slots && r.slots[r.pending[h].key] == h
    ensures r.pending[h].key.0 in r.spaces
    ensures forall k | k in r.slots && r.slots[k] == h :: k == r.pending[h].key
  {
    assert Tracked(r, h);
    assert Registered(r, r.pending[h].key);
    forall k | k in r.slots && r.slots[k] == h ensures k == r.pending[h].key {
      assert Registered(r, k);
    }
  }

  /** Under Wf, the handles registered under t are exactly the pending timers
      that will remove an entry of type t. */
  lemma TypeHandlesPending(r: Registry, t: string)
    requires Wf(r)
    ensures forall h :: h in TypeHandles(r, t) <==> h in r.pending && r.pending[h].key.0 == t
  {
    forall h | h in TypeHandles(r, t) ensures h in r.pending && r.pending[h].key.0 == t {
      var k :| k in r.slots && k.0 == t && r.slots[k] == h;
      assert Registered(r, k);
    }
    forall h | h in r.pending && r.pending[h].key.0 == t ensures h in TypeHandles(r, t) {
      assert Tracked(r, h);
      var k := r.pending[h].key;
      assert k in r.slots && k.0 == t && r.slots[k] == h;
    }
  }

  /** store, lines 55-57: create the namespace, cancel the registered timer and
      register a new one due at `due`. */
  function Arm(r: Registry, k: Key, due: int): (r': Registry)
    ensures TimerOf(r', k) == Some(Timer(due, k))
    ensures r'.spaces == r.spaces + {k.0}
  {
    var live := if k in r.slots then r.pending - {r.slots[k]} else r.pending;
    Registry(r.spaces + {k.0}, r.slots[k := r.next], live[r.next := Timer(due, k)], r.next + 1)
  }

  /** After arming, the registry is still consistent. */
  lemma ArmKeepsWf(r: Registry, k: Key, due: int)
    requires Wf(r)
    ensures Wf(Arm(r, k, due))
  {
    var r' := Arm(r, k, due);
    if k in r.slots {
      assert Registered(r, k);
    }
    forall k2 ensures Registered(r', k2) {
      if k2 in r'.slots && k2 != k {
        assert Registered(r, k2);
        assert Tracked(r, r.slots[k2]);
      }
    }
    forall h ensures Tracked(r', h) {
      if h in r'.pending && h != r.next {
        assert Tracked(r, h);
      }
    }
  }

  /** After arming, exactly one timer is pending for the entry, and every
      other entry keeps its timer. */
  lemma ArmTimers(r: Registry, k: Key, due: int)
    requires Wf(r)
    ensures TimersFor(Arm(r, k, due), k) == {r.next}
    ensures forall k2 | k2 != k :: TimerOf(Arm(r, k, due), k2) == TimerOf(r, k2)
  {
    var r' := Arm(r, k, due);
    ArmKeepsWf(r, k, due);
    TimersForRegistered(r', k);
    if k in r.slots {
      assert Registered(r, k);
    }
    forall k2 | k2 != k ensures TimerOf(r', k2) == TimerOf(r, k2) {
      if k2 in r.slots {
        assert Registered(r, k2);
        assert Tracked(r, r.slots[k2]);
      }
    }
  }

  /** fetch, lines 76-77, as written: `_timeouts[type][id]` is read before
      anyone creates `_timeouts[type]`, so a type that has no namespace yet
      makes fetch throw a TypeError. */
  function RearmAsWritten(r: Registry, k: Key, due: int): (res: Result<Registry, string>)
    ensures res.Err? <==> k.0 !in r.spaces
    ensures res.Ok? ==> TimerOf(res.value, k) == Some(Timer(due, k))
  {
    if k.0 !in r.spaces then Err("TypeError: Cannot read properties of undefined")
    else Ok(Arm(r, k, due))
  }

  /** fetch, corrected: re-arm the timer only where the namespace exists
      (the guard `remove` already has), and otherwise leave timers alone;
      where the code as written succeeds, the two agree. */
  function Rearm(r: Registry, k: Key, due: int): (r': Registry)
    ensures k.0 in r.spaces ==> TimerOf(r', k) == Some(Timer(due, k))
    ensures k.0 !in r.spaces ==> r' == r
    ensures r'.spaces == r.spaces
    ensures RearmAsWritten(r, k, due).Ok? ==> RearmAsWritten(r, k, due).value == r'
  {
    if k.0 in r.spaces then Arm(r, k, due) else r
  }

  /** remove, lines 125-128: when the namespace exists, cancel and unregister
      the timer of k. */
  function Disarm(r: Registry, k: Key): (r': Registry)
    ensures k.0 in r.spaces ==> k !in r'.slots
    ensures r'.spaces == r.spaces && r'.next == r.next
    ensures r'.pending.Keys <= r.pending.Keys
  {
    if k.0 in r.spaces then
      var live := if k in r.slots then r.pending - {r.slots[k]} else r.pending;
      Registry(r.spaces, r.slots - {k}, live, r.next)
    else
      r
  }

  /** After remove, the registry is still consistent, no timer is left for
      the entry, and every other entry keeps its timer. */
  lemma DisarmKeepsWf(r: Registry, k: Key)
    requires Wf(r)
    ensures Wf(Disarm(r, k))
    ensures TimersFor(Disarm(r, k), k) == {}
    ensures forall k2 | k2 != k :: TimerOf(Disarm(r, k), k2) == TimerOf(r, k2)
  {
    var r' := Disarm(r, k);
    assert Registered(r, k);
    if k.0 in r.spaces {
      forall k2 ensures Registered(r', k2) {
        if k2 in r'.slots {
          assert Registered(r, k2);
        }
      }
      forall h ensures Tracked(r', h) {
        if h in r'.pending {
          assert Tracked(r, h);
        }
      }
      forall k2 | k2 != k ensures TimerOf(r', k2) == TimerOf(r, k2) {
        if k2 in r.slots {
          assert Registered(r, k2);
        }
      }
    }
    TimersForRegistered(r', k);
  }

  /** clear, lines 144-146, as written: `_timeouts[type]` is a plain object,
      which has no `forEach`, so clear throws whenever the namespace exists. */
  function DisarmTypeAsWritten(r: Registry, t: string): (res: Result<Registry, string>)
    ensures res.Err? <==> t in r.spaces
    ensures res.Ok? ==> res.value == r
  {
    if t in r.spaces then Err("TypeError: this._timeouts[type].forEach is not a function")
    else Ok(r)
  }

  /** clear, corrected as its comment intends: cancel every timer registered
      under t and drop the namespace; where the code as written succeeds, the
      two agree. */
  function DisarmType(r: Registry, t: string): (r': Registry)
    ensures r'.spaces == r.spaces - {t}
    ensures r'.pending.Keys <= r.pending.Keys
    ensures t in r.spaces ==> forall k | k in r'.slots :: k.0 != t
    ensures DisarmTypeAsWritten(r, t).Ok? ==> DisarmTypeAsWritten(r, t).value == r'
  {
    if t in r.spaces then
      var doomed := TypeHandles(r, t);
      Registry(r.spaces - {t},
               map k | k in r.slots && k.0 != t :: r.slots[k],
               map h | h in r.pending && h !in doomed :: r.pending[h],
               r.next)
    else
      r
  }

  /** After clear, the registry is still consistent, no timer of type t is
      pending, and every other type keeps its timers. */
  lemma DisarmTypeKeepsWf(r: Registry, t: string)
    requires Wf(r)
    ensures Wf(DisarmType(r, t))
    ensures forall h | h in DisarmType(r, t).pending :: DisarmType(r, t).pending[h].key.0 != t
    ensures forall k: Key | k.0 != t :: TimerOf(DisarmType(r, t), k) == TimerOf(r, k)
  {
    var r' := DisarmType(r, t);
    TypeHandlesPending(r, t);
    if t in r.spaces {
      forall k ensures Registered(r', k) {
        if k in r'.slots {
          assert Registered(r, k);
        }
      }
      forall h ensures Tracked(r', h) {
        if h in r'.pending {
          assert Tracked(r, h);
        }
      }
      forall k: Key | k.0 != t ensures TimerOf(r', k) == TimerOf(r, k) {
        if k in r.slots {
          assert Registered(r, k);
        }
      }
    } else {
      forall h | h in r.pending ensures r.pending[h].key.0 != t {
        SoleSlot(r, h);
      }
    }
  }

  /** The timer part of store and fetch for a TTL of `ttl` ms at time `now`. */
  function StoreTimers(r: Registry, ttl: int, now: int, k: Key): (r': Registry)
    ensures ttl == 0 ==> r' == r
    ensures ttl != 0 ==> TimerOf(r', k) == Some(Timer(now + TimerDelay(ttl), k))
  {
    if ttl != 0 then Arm(r, k, now + TimerDelay(ttl)) else r
  }

  function FetchTimers(r: Registry, ttl: int, now: int, k: Key): (r': Registry)
    ensures ttl == 0 || k.0 !in r.spaces ==> r' == r
    ensures ttl != 0 && k.0 in r.spaces ==> TimerOf(r', k) == Some(Timer(now + TimerDelay(ttl), k))
  {
    if ttl != 0 then Rearm(r, k, now + TimerDelay(ttl)) else r
  }

  // ------------------------------------------------------- abstract backend

  /** Backend contents: payloads keyed by (type, id). */
  type Store = map<Key, Json>

  /** The id -> payload associations of type t, as `_map` returns them. */
  function Namespace(d: Store, t: string): (m: map<string, Json>)
    ensures forall i :: i in m <==> (t, i) in d
    ensures forall i | i in m :: m[i] == d[(t, i)]
  {
    map k | k in d && k.0 == t :: k.1 := d[k]
  }

  function Get(d: Store, k: Key): Option<Json>
  {
    if k in d then Some(d[k]) else None
  }

  /** `_store`: overwrites the payload of k. */
  function Put(d: Store, k: Key, p: Json): (d': Store)
    ensures Get(d', k) == Some(p)
    ensures forall k2 | k2 != k :: Get(d', k2) == Get(d, k2)
  {
    d[k := p]
  }

  /** `_remove`: drops one entry. */
  function Delete(d: Store, k: Key): (d': Store)
    ensures Get(d', k) == None
    ensures forall k2 | k2 != k :: Get(d', k2) == Get(d, k2)
  {
    d - {k}
  }

  /** `_clear`: drops every entry of type t. */
  function DropType(d: Store, t: string): (d': Store)
    ensures forall k :: Get(d', k) == (if k.0 == t then None else Get(d, k))
  {
    map k | k in d && k.0 != t :: d[k]
  }

  function AsValue(o: Option<Json>): Value
  {
    if o.Some? then Defined(o.value) else Undefined
  }

  // ---------------------------------------------------------- timers firing

  /** k is registered under a handle in F. */
  predicate FiredSlot(r: Registry, F: set<Handle>, k: Key)
  {
    k in r.slots && r.slots[k] in F
  }

  /** The registry after the timers in F have fired and each has run
      remove(type, id). */
  function FireTimers(r: Registry, F: set<Handle>): Registry
  {
    Registry(
      r.spaces,
      map k | k in r.slots && r.slots[k] !in F :: r.slots[k],
      map h | h in r.pending && h !in F :: r.pending[h],
      r.next)
  }

  /** The backend after the timers in F have fired. */
  function FireEntries(r: Registry, d: Store, F: set<Handle>): Store
  {
    map k | k in d && !FiredSlot(r, F, k) :: d[k]
  }

  function Due(r: Registry, now: int): set<Handle>
  {
    set h | h in r.pending && r.pending[h].due <= now
  }

  /** Everything that `Tick(now)` fires. */
  function ExpireTimers(r: Registry, now: int): Registry
  {
    FireTimers(r, Due(r, now))
  }

  function ExpireEntries(r: Registry, d: Store, now: int): Store
  {
    FireEntries(r, d, Due(r, now))
  }

  lemma FireNothing(r: Registry, d: Store)
    ensures FireTimers(r, {}) == r
    ensures FireEntries(r, d, {}) == d
  {
    assert FireTimers(r, {}).slots == r.slots;
    assert FireTimers(r, {}).pending == r.pending;
    assert FireEntries(r, d, {}) == d;
  }

  lemma FireTimersWf(r: Registry, F: set<Handle>)
    requires Wf(r)
    ensures Wf(FireTimers(r, F))
  {
    var r' := FireTimers(r, F);
    forall k ensures Registered(r', k) {
      if k in r'.slots {
        assert Registered(r, k);
      }
    }
    forall h ensures Tracked(r', h) {
      if h in r'.pending {
        assert Tracked(r, h);
      }
    }
  }

  /** One more timer h firing, from a registry in which the timers F have
      fired: the timer leaves the pending set and its remove(type, id) call
      unregisters it. The outcome does not depend on the order in which due
      timers fire. */
  lemma FireStepTimers(r0: Registry, F: set<Handle>, h: Handle)
    requires Wf(r0) && h in r0.pending && h !in F
    ensures
      var r := FireTimers(r0, F);
      && h in r.pending && r.pending[h] == r0.pending[h]
      && Disarm(r.(pending := r.pending - {h}), r0.pending[h].key) == FireTimers(r0, F + {h})
  {
    var r := FireTimers(r0, F);
    var k := r0.pending[h].key;
    SoleSlot(r0, h);
    var lhs := Disarm(r.(pending := r.pending - {h}), k);
    var rhs := FireTimers(r0, F + {h});
    forall k2 ensures k2 in lhs.slots <==> k2 in rhs.slots {
      if k2 in r0.slots && k2 != k {
        assert r0.slots[k2] != h;
      }
    }
    assert lhs.slots == rhs.slots;
    assert lhs.pending == rhs.pending;
  }

  /** ... and deletes the entry it was armed for. */
  lemma FireStepEntries(r0: Registry, d0: Store, F: set<Handle>, h: Handle)
    requires Wf(r0) && h in r0.pending && h !in F
    ensures Delete(FireEntries(r0, d0, F), r0.pending[h].key) == FireEntries(r0, d0, F + {h})
  {
    var k := r0.pending[h].key;
    SoleSlot(r0, h);
    var dl := Delete(FireEntries(r0, d0, F), k);
    var dr := FireEntries(r0, d0, F + {h});
    forall k2 ensures k2 in dl <==> k2 in dr {
      if k2 in r0.slots && k2 != k {
        assert r0.slots[k2] != h;
      }
    }
    assert dl == dr;
  }

  /** The timers left after the due ones fired: exactly the pending timers
      that are not yet due. */
  lemma ExpireTimersPending(r: Registry, now: int)
    ensures forall h :: h in ExpireTimers(r, now).pending <==> h in r.pending && r.pending[h].due > now
    ensures forall h | h in ExpireTimers(r, now).pending :: ExpireTimers(r, now).pending[h] == r.pending[h]
  {
  }

  lemma FiredSlotDue(r: Registry, now: int, k: Key)
    ensures FiredSlot(r, Due(r, now), k) <==> TimerOf(r, k).Some? && TimerOf(r, k).value.due <= now
  {
  }

  /** Firing the due timers keeps every entry whose timer is not yet due, and
      its timer. */
  lemma ExpireKeeps(r: Registry, d: Store, now: int, k: Key)
    requires Wf(r)
    requires TimerOf(r, k).None? || TimerOf(r, k).value.due > now
    ensures Get(ExpireEntries(r, d, now), k) == Get(d, k)
    ensures TimerOf(ExpireTimers(r, now), k) == TimerOf(r, k)
    ensures ExpireTimers(r, now).spaces == r.spaces
    ensures Wf(ExpireTimers(r, now))
  {
    FiredSlotDue(r, now, k);
    FireTimersWf(r, Due(r, now));
  }

  /** ... and removes every entry whose timer is due, with its timer. */
  lemma ExpireDrops(r: Registry, d: Store, now: int, k: Key)
    requires TimerOf(r, k).Some? && TimerOf(r, k).value.due <= now
    ensures Get(ExpireEntries(r, d, now), k) == None
    ensures TimerOf(ExpireTimers(r, now), k) == None
  {
    FiredSlotDue(r, now, k);
  }

  /** An entry whose timer falls due one TTL after `now` is still there when
      the clock has advanced by less than the TTL, and is gone once it has
      advanced by the full TTL. */
  lemma ExpiryWindow(r: Registry, d: Store, ttl: int, now: int, dt: int, k: Key, p: Json)
    requires Wf(r) && TimerOf(r, k) == Some(Timer(now + TimerDelay(ttl), k))
    requires Get(d, k) == Some(p) && 0 <= dt < TimerDelay(ttl)
    ensures Get(ExpireEntries(r, d, now + dt), k) == Some(p)
    ensures Get(ExpireEntries(ExpireTimers(r, now + dt), ExpireEntries(r, d, now + dt), now + TimerDelay(ttl)), k) == None
  {
    ExpireKeeps(r, d, now + dt, k);
    ExpireDrops(ExpireTimers(r, now + dt), ExpireEntries(r, d, now + dt), now + TimerDelay(ttl), k);
  }

  /** Storing k at `now` arms its timer one TTL ahead. */
  lemma StoreArms(r: Registry, ttl: int, now: int, k: Key)
    requires Wf(r) && ttl != 0
    ensures Wf(StoreTimers(r, ttl, now, k))
    ensures TimerOf(StoreTimers(r, ttl, now, k), k) == Some(Timer(now + TimerDelay(ttl), k))
    ensures k.0 in StoreTimers(r, ttl, now, k).spaces
  {
    ArmKeepsWf(r, k, now + TimerDelay(ttl));
  }

  /** Storing or fetching k again while its namespace exists re-arms the
      timer one TTL ahead and keeps the payload. */
  lemma TouchRearms(r: Registry, d: Store, ttl: int, now: int, k: Key, p: Json, refetch: bool)
    requires Wf(r) && ttl != 0 && k.0 in r.spaces && Get(d, k) == Some(p)
    ensures
      var r' := if refetch then FetchTimers(r, ttl, now, k) else StoreTimers(r, ttl, now, k);
      var d' := if refetch then d else Put(d, k, p);
      Wf(r') && TimerOf(r', k) == Some(Timer(now + TimerDelay(ttl), k)) && Get(d', k) == Some(p)
  {
    ArmKeepsWf(r, k, now + TimerDelay(ttl));
  }

  /** Touching an entry (store or fetch) while its namespace exists: it is
      still there for the following TTL less one millisecond, and gone once
      the full TTL has passed since the touch. */
  lemma TouchThenExpire(r: Registry, d: Store, ttl: int, now: int, dt: int, k: Key, p: Json, refetch: bool)
    requires Wf(r) && ttl != 0 && k.0 in r.spaces && Get(d, k) == Some(p)
    requires 0 <= dt < TimerDelay(ttl)
    ensures
      var r' := if refetch then FetchTimers(r, ttl, now, k) else StoreTimers(r, ttl, now, k);
      var d' := if refetch then d else Put(d, k, p);
      var r2, d2 := ExpireTimers(r', now + dt), ExpireEntries(r', d', now + dt);
      && Get(d2, k) == Some(p)
      && Get(ExpireEntries(r2, d2, now + TimerDelay(ttl)), k) == None
  {
    TouchRearms(r, d, ttl, now, k, p, refetch);
    var r' := if refetch then FetchTimers(r, ttl, now, k) else StoreTimers(r, ttl, now, k);
    var d' := if refetch then d else Put(d, k, p);
    ExpiryWindow(r', d', ttl, now, dt, k, p);
  }

  /** An entry stored at t0 is still there, with its namespace, after less
      than one TTL. */
  lemma StoreThenWait(r0: Registry, d0: Store, ttl: int, t0: int, d1: int, k: Key, p: Json)
    requires Wf(r0) && ttl != 0 && 0 <= d1 < TimerDelay(ttl)
    ensures
      var r1, s1 := StoreTimers(r0, ttl, t0, k), Put(d0, k, p);
      var r2, s2 := ExpireTimers(r1, t0 + d1), ExpireEntries(r1, s1, t0 + d1);
      Wf(r2) && k.0 in r2.spaces && Get(s2, k) == Some(p)
  {
    StoreArms(r0, ttl, t0, k);
    ExpireKeeps(StoreTimers(r0, ttl, t0, k), Put(d0, k, p), t0 + d1, k);
  }

  /** Sliding expiry, as the envelope's tests exercise it: an entry stored at
      t0 and stored or fetched again at t0 + d1, within the TTL, is still there
      at t0 + d1 + d2 for any d2 below the TTL (even past the first deadline),
      and is gone once a full TTL has passed since that last access. */
  lemma SlidingExpiry(r0: Registry, d0: Store, ttl: int, k: Key, p: Json,
                      t0: int, d1: int, d2: int, refetch: bool)
    requires Wf(r0) && ttl != 0
    requires 0 <= d1 < TimerDelay(ttl) && 0 <= d2 < TimerDelay(ttl)
    ensures
      var r1, s1 := StoreTimers(r0, ttl, t0, k), Put(d0, k, p);
      var r2, s2 := ExpireTimers(r1, t0 + d1), ExpireEntries(r1, s1, t0 + d1);
      var r3 := if refetch then FetchTimers(r2, ttl, t0 + d1, k) else StoreTimers(r2, ttl, t0 + d1, k);
      var s3 := if refetch then s2 else Put(s2, k, p);
      var r4, s4 := ExpireTimers(r3, t0 + d1 + d2), ExpireEntries(r3, s3, t0 + d1 + d2);
      var s5 := ExpireEntries(r4, s4, t0 + d1 + TimerDelay(ttl));
      && Get(s2, k) == Some(p)
      && Get(s4, k) == Some(p)
      && Get(s5, k) == None
  {
    StoreThenWait(r0, d0, ttl, t0, d1, k, p);
    var r1, s1 := StoreTimers(r0, ttl, t0, k), Put(d0, k, p);
    TouchThenExpire(ExpireTimers(r1, t0 + d1), ExpireEntries(r1, s1, t0 + d1), ttl, t0 + d1, d2, k, p, refetch);
  }

  /** Without a TTL nothing is ever armed. */
  lemma NoTtlNoTimers(r: Registry, now: int, k: Key)
    ensures StoreTimers(r, 0, now, k) == r && FetchTimers(r, 0, now, k) == r
  {
  }

  /** The fetch defect: with TTL enabled, fetching from a type that nothing
      has been stored under yet throws. */
  lemma FetchBeforeStoreThrows(k: Key, due: int)
    ensures RearmAsWritten(NoTimers, k, due).Err?
  {
  }

  /** The clear defect: with TTL enabled, clearing a type right after
      storing into it throws. */
  lemma ClearAfterStoreThrows(r: Registry, ttl: int, now: int, k: Key)
    requires ttl != 0
    ensures DisarmTypeAsWritten(StoreTimers(r, ttl, now, k), k.0).Err?
  {
  }

  // ------------------------------------------------- the instance invariant

  /** Every pending timer falls due after `now` and at most `span` ms later. */
  ghost predicate DueWithin(r: Registry, now: int, span: int) {
    forall h :: DueBy(r, now, span, h)
  }

  ghost predicate DueBy(r: Registry, now: int, span: int, h: Handle) {
    h in r.pending ==> now < r.pending[h].due <= now + span
  }

  /** The invariant of a cache instance at time `now` with TTL `ttl`: a
      consistent registry, no timers at all without TTL, and every timer due
      within one TTL. */
  ghost predicate Consistent(r: Registry, now: int, ttl: int) {
    && Wf(r)
    && (ttl == 0 ==> r.slots == map[] && r.pending == map[])
    && DueWithin(r, now, TimerDelay(ttl))
  }

  /** A timer armed within the window keeps every timer within it. */
  lemma ArmDueWithin(r: Registry, k: Key, due: int, now: int, span: int)
    requires DueWithin(r, now, span) && now < due <= now + span
    ensures DueWithin(Arm(r, k, due), now, span)
  {
    var r' := Arm(r, k, due);
    forall h ensures DueBy(r', now, span, h) {
      if h in r'.pending && h != r.next {
        assert DueBy(r, now, span, h);
      }
    }
  }

  lemma StoreConsistent(r: Registry, ttl: int, now: int, k: Key)
    requires Consistent(r, now, ttl)
    ensures Consistent(StoreTimers(r, ttl, now, k), now, ttl)
  {
    if ttl != 0 {
      ArmKeepsWf(r, k, now + TimerDelay(ttl));
      ArmDueWithin(r, k, now + TimerDelay(ttl), now, TimerDelay(ttl));
    }
  }

  lemma FetchConsistent(r: Registry, ttl: int, now: int, k: Key)
    requires Consistent(r, now, ttl)
    ensures Consistent(FetchTimers(r, ttl, now, k), now, ttl)
  {
    if ttl != 0 && k.0 in r.spaces {
      ArmKeepsWf(r, k, now + TimerDelay(ttl));
      ArmDueWithin(r, k, now + TimerDelay(ttl), now, TimerDelay(ttl));
    }
  }

  /** Cancelling timers keeps the others within the window. */
  lemma DueWithinSub(r: Registry, r': Registry, now: int, span: int)
    requires DueWithin(r, now, span)
    requires forall h | h in r'.pending :: h in r.pending && r'.pending[h] == r.pending[h]
    ensures DueWithin(r', now, span)
  {
    forall h ensures DueBy(r', now, span, h) {
      assert DueBy(r, now, span, h);
    }
  }

  lemma DisarmConsistent(r: Registry, now: int, ttl: int, k: Key)
    requires Consistent(r, now, ttl)
    ensures Consistent(Disarm(r, k), now, ttl)
  {
    DisarmKeepsWf(r, k);
    DueWithinSub(r, Disarm(r, k), now, TimerDelay(ttl));
  }

  lemma DisarmTypeConsistent(r: Registry, now: int, ttl: int, t: string)
    requires Consistent(r, now, ttl)
    ensures Consistent(DisarmType(r, t), now, ttl)
  {
    DisarmTypeKeepsWf(r, t);
    DueWithinSub(r, DisarmType(r, t), now, TimerDelay(ttl));
    if ttl == 0 {
      assert DisarmType(r, t).slots == map[];
    }
  }

  /** Firing the due timers re-establishes the invariant at the new time. */
  lemma ExpireConsistent(r: Registry, clock: int, now: int, ttl: int)
    requires Consistent(r, clock, ttl) && clock <= now
    ensures Consistent(ExpireTimers(r, now), now, ttl)
  {
    var r' := ExpireTimers(r, now);
    FireTimersWf(r, Due(r, now));
    ExpireTimersPending(r, now);
    forall h ensures DueBy(r', now, TimerDelay(ttl), h) {
      assert DueBy(r, clock, TimerDelay(ttl), h);
    }
    if ttl == 0 {
      assert ExpireTimers(r, now).slots == map[];
    }
  }

  // ----------------------------------------------------------- the instance

  class Cache {
    const name: string
    /** `config.type`, the backend kind. */
    const kind: string
    /** `_ttl` in milliseconds; 0 when TTL is disabled. */
    const ttl: int

    /** `_timeouts`, flattened (see the module comment). */
    var spaces: set<string>
    var slots: map<Key, Handle>
    /** Node's pending timers and the next handle it hands out. */
    var pending: map<Handle, Timer>
    var nextHandle: Handle
    /** The current time in milliseconds. */
    var clock: int
    /** What the backend holds. */
    var data: Store

    function Timers(): Registry
      reads this
    {
      Registry(spaces, slots, pending, nextHandle)
    }

    /** The registry invariant at the current time (see Consistent). */
    ghost predicate Valid()
      reads this
    {
      Consistent(Timers(), clock, ttl)
    }

    constructor (featuresTtl: bool, configTtl: int, configType: string, name: string, backend: Store, now: int)
      ensures Valid()
      ensures this.name == name && kind == configType
      ensures ttl == EffectiveTtl(featuresTtl, configTtl)
      ensures Timers() == NoTimers && data == backend && clock == now
    {
      this.name := name;
      kind := configType;
      var t := if featuresTtl then configTtl else 0;
      if t != 0 {
        t := t * 1000;
      }
      ttl := t;
      spaces := {};
      slots := map[];
      pending := map[];
      nextHandle := 0;
      clock := now;
      data := backend;
    }

    /** store: (re)arms the entry's timer when TTL is on, then stores. */
    method Store(t: string, i: string, p: Json) returns (r: Json)
      requires Valid()
      modifies this
      ensures Valid() && clock == old(clock)
      ensures Timers() == StoreTimers(old(Timers()), ttl, clock, (t, i))
      ensures data == Put(old(data), (t, i), p)
      ensures r == p
    {
      if ttl != 0 {
        spaces := spaces + {t};
        // clearTimeout on the timer registered so far
        var live := if (t, i) in slots then pending - {slots[(t, i)]} else pending;
        // setTimeout hands out the next handle
        var h := nextHandle;
        pending := live[h := Timer(clock + TimerDelay(ttl), (t, i))];
        nextHandle := h + 1;
        slots := slots[(t, i) := h];
      }
      StoreConsistent(old(Timers()), ttl, clock, (t, i));
      data := Put(data, (t, i), p);
      r := p;
    }

    /** Corrected fetch (see Rearm): resets the timer when the namespace
        exists, then returns the payload or `undefined`. */
    method Fetch(t: string, i: string) returns (r: Value)
      requires Valid()
      modifies this
      ensures Valid() && clock == old(clock) && data == old(data)
      ensures Timers() == FetchTimers(old(Timers()), ttl, clock, (t, i))
      ensures r == AsValue(Get(data, (t, i)))
    {
      if ttl != 0 && t in spaces {
        var live := if (t, i) in slots then pending - {slots[(t, i)]} else pending;
        var h := nextHandle;
        pending := live[h := Timer(clock + TimerDelay(ttl), (t, i))];
        nextHandle := h + 1;
        slots := slots[(t, i) := h];
      }
      FetchConsistent(old(Timers()), ttl, clock, (t, i));
      r := AsValue(Get(data, (t, i)));
    }

    /** list: the payloads of type t, in some order; timers are not touched
        (the method modifies nothing). */
    method List(t: string) returns (ghost ids: seq<string>, vals: seq<Json>)
      ensures Collections.Enumerates(ids, Namespace(data, t).Keys)
      ensures vals == Collections.ValuesAt(Namespace(data, t), ids)
    {
      var m := Namespace(data, t);
      var keys := Collections.Enumerate(m.Keys);
      ids := keys;
      vals := [];
      for n := 0 to |keys|
        invariant vals == Collections.ValuesAt(m, keys[..n])
      {
        Collections.ValuesAtPrefix(m, keys, n);
        vals := vals + [m[keys[n]]];
      }
      assert keys[..|keys|] == keys;
    }

    /** map: the id -> payload associations of type t; timers are not touched. */
    method Map(t: string) returns (m: map<string, Json>)
      ensures forall i :: (i in m <==> Get(data, (t, i)).Some?)
      ensures forall i | i in m :: Get(data, (t, i)) == Some(m[i])
    {
      m := Namespace(data, t);
    }

    /** remove: unregisters and cancels the timer of (t, i), then deletes the
        entry and returns what it held. Timers call it with the handle they
        came from already out of the pending set, so it does not require
        Valid(). */
    method Remove(t: string, i: string) returns (r: Value)
      modifies this
      ensures Timers() == Disarm(old(Timers()), (t, i))
      ensures data == Delete(old(data), (t, i)) && clock == old(clock)
      ensures r == AsValue(Get(old(data), (t, i)))
      ensures old(Valid()) ==> Valid()
    {
      if Valid() {
        DisarmConsistent(Timers(), clock, ttl, (t, i));
      }
      if t in spaces {
        if (t, i) in slots {
          pending := pending - {slots[(t, i)]};
        }
        slots := slots - {(t, i)};
      }
      r := AsValue(Get(data, (t, i)));
      data := Delete(data, (t, i));
    }

    /** Corrected clear (see DisarmType): cancels every timer registered under
        t, drops the namespace, then drops the backend's type. */
    method Clear(t: string)
      requires Valid()
      modifies this
      ensures Valid() && clock == old(clock)
      ensures Timers() == DisarmType(old(Timers()), t)
      ensures data == DropType(old(data), t)
    {
      DisarmTypeConsistent(Timers(), clock, ttl, t);
      // clearTimeout on every timer of the type, then drop `_timeouts[type]`
      var r := DisarmType(Timers(), t);
      spaces, slots, pending := r.spaces, r.slots, r.pending;
      data := DropType(data, t);
    }

    /** The event loop reaching time `now`: every timer due by then fires and
        calls remove(type, id), one after another, in whatever order. */
    method Tick(now: int)
      requires Valid() && clock <= now
      modifies this
      ensures Valid() && clock == now
      ensures Timers() == ExpireTimers(old(Timers()), now)
      ensures data == ExpireEntries(old(Timers()), old(data), now)
    {
      ghost var r0, d0 := Timers(), data;
      var due := set h | h in pending && pending[h].due <= now;
      ghost var all, fired: set<Handle> := due, {};
      FireNothing(r0, d0);
      while due != {}
        invariant fired + due == all && fired !! due
        invariant Timers() == FireTimers(r0, fired)
        invariant data == FireEntries(r0, d0, fired)
        invariant clock == old(clock)
        decreases |due|
      {
        var h :| h in due;
        Collections.MoveOne(fired, due, all, h);
        FireStepTimers(r0, fired, h);
        FireStepEntries(r0, d0, fired, h);
        var tm := pending[h];
        pending := pending - {h};
        var _ := Remove(tm.key.0, tm.key.1);
        fired := fired + {h};
        due := due - {h};
      }
      assert fired == Due(r0, now);
      ExpireConsistent(r0, clock, now, ttl);
      clock := now;
    }
  }
}
