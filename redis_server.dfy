/** The part of a Redis server the Redis backend relies on.

    One keyspace maps keys to typed values (strings, sets, hashes); a key may
    carry an absolute expiry time in milliseconds, and a key whose time has
    come is gone for every command (expiry is decided lazily, against the
    server clock `now`). Commands return `Err` with the server's error text
    where Redis replies with an error. */
module RedisServer {
  import opened Wrappers

  datatype RValue =
    | RStr(s: string)
    | RSet(members: set<string>)
    | RHash(fields: map<string, string>)

  datatype Server = Server(data: map<string, RValue>, expires: map<string, int>, now: int)

  const EmptyServer := Server(map[], map[], 0)

  /** The expiry argument of SET ... PX and PEXPIRE. `NonNumeric` is an argument
      that is not an integer, such as a JavaScript `true`. */
  datatype Expiry = Px(ms: int) | NonNumeric

  const WrongType := "WRONGTYPE Operation against a key holding the wrong kind of value"
  const NotInteger := "ERR value is not an integer or out of range"
  const InvalidExpire := "ERR invalid expire time in 'set' command"
  const MGetArity := "ERR wrong number of arguments for 'mget' command"

  /** The key exists and its time has not come. */
  predicate Exists(s: Server, k: string)
  {
    k in s.data && (k !in s.expires || s.expires[k] > s.now)
  }

  function Lookup(s: Server, k: string): (v: Option<RValue>)
    ensures v.Some? <==> Exists(s, k)
  {
    if Exists(s, k) then Some(s.data[k]) else None
  }

  /** Replaces the value of k. An existing key keeps its expiry; a key that
      was missing (or had expired) is created without one. */
  function Write(s: Server, k: string, v: RValue): (s': Server)
    ensures Lookup(s', k) == Some(v) && s'.now == s.now
    ensures forall k2 | k2 != k :: Lookup(s', k2) == Lookup(s, k2)
    ensures s'.expires == s.expires || s'.expires == s.expires - {k}
  {
    if Exists(s, k) then s.(data := s.data[k := v])
    else s.(data := s.data[k := v], expires := s.expires - {k})
  }

  /** Removes k and its expiry. */
  function Drop(s: Server, k: string): (s': Server)
    ensures Lookup(s', k) == None && s'.now == s.now
    ensures forall k2 | k2 != k :: Lookup(s', k2) == Lookup(s, k2)
  {
    s.(data := s.data - {k}, expires := s.expires - {k})
  }

  /** The clock reaches `t` (it never runs backwards). */
  function Advance(s: Server, t: int): (s': Server)
    ensures s'.data == s.data && s'.expires == s.expires
    ensures s'.now == (if t > s.now then t else s.now)
  {
    s.(now := if t > s.now then t else s.now)
  }

  // ------------------------------------------------------------ strings

  /** GET: nil for a missing key, an error for a key that is not a string. */
  function Get(s: Server, k: string): (r: Result<Option<string>, string>)
    ensures r == Ok(None) <==> !Exists(s, k)
    ensures r.Err? <==> Exists(s, k) && !s.data[k].RStr?
    ensures r.Ok? && r.value.Some? ==> Lookup(s, k) == Some(RStr(r.value.value))
  {
    match Lookup(s, k)
    case None => Ok(None)
    case Some(RStr(v)) => Ok(Some(v))
    case Some(_) => Err(WrongType)
  }

  /** SET k v PX ms: overwrites whatever k held and sets its expiry. */
  function SetPx(s: Server, k: string, v: string, px: Expiry): (r: Result<Server, string>)
    ensures r.Err? <==> px.NonNumeric? || px.ms <= 0
    ensures r.Ok? ==> Lookup(r.value, k) == Some(RStr(v)) && k in r.value.expires && r.value.expires[k] == s.now + px.ms
    ensures r.Ok? ==> r.value.now == s.now && forall k2 | k2 != k :: Lookup(r.value, k2) == Lookup(s, k2)
  {
    match px
    case NonNumeric => Err(NotInteger)
    case Px(ms) =>
      if ms <= 0 then Err(InvalidExpire)
      else Ok(s.(data := s.data[k := RStr(v)], expires := s.expires[k := s.now + ms]))
  }

  /** PEXPIRE k ms: resets the expiry of an existing key; a non-positive time
      deletes it. Replies 1 when the key existed, 0 otherwise. */
  function PExpire(s: Server, k: string, px: Expiry): (r: Result<(Server, int), string>)
    ensures r.Err? <==> px.NonNumeric?
    ensures r.Ok? ==> (r.value.1 == 1 <==> Exists(s, k)) && (r.value.1 == 0 <==> !Exists(s, k))
    ensures r.Ok? && !Exists(s, k) ==> r.value.0 == s
    ensures r.Ok? && Exists(s, k) && px.ms > 0 ==>
      Lookup(r.value.0, k) == Lookup(s, k) && k in r.value.0.expires && r.value.0.expires[k] == s.now + px.ms
    ensures r.Ok? && px.ms <= 0 ==> Lookup(r.value.0, k) == None
    ensures r.Ok? ==> r.value.0.now == s.now && forall k2 | k2 != k :: Lookup(r.value.0, k2) == Lookup(s, k2)
  {
    match px
    case NonNumeric => Err(NotInteger)
    case Px(ms) =>
      if !Exists(s, k) then Ok((s, 0))
      else if ms <= 0 then Ok((Drop(s, k), 1))
      else Ok((s.(expires := s.expires[k := s.now + ms]), 1))
  }

  /** MGET: the string values of `keys`, nil where a key is missing or not a
      string. MGET needs at least one key, so an empty list is refused. */
  function MGet(s: Server, keys: seq<string>): (r: Result<seq<Option<string>>, string>)
    ensures r.Err? <==> keys == []
    ensures r.Err? ==> r.error == MGetArity
    ensures r.Ok? ==> |r.value| == |keys| && forall n | 0 <= n < |keys| :: r.value[n] == StrAt(s, keys[n])
  {
    if keys == [] then Err(MGetArity) else Ok(StrsAt(s, keys))
  }

  function StrsAt(s: Server, keys: seq<string>): (vs: seq<Option<string>>)
    ensures |vs| == |keys|
    ensures forall n | 0 <= n < |keys| :: vs[n] == StrAt(s, keys[n])
  {
    if keys == [] then [] else [StrAt(s, keys[0])] + StrsAt(s, keys[1..])
  }

  function StrAt(s: Server, k: string): Option<string>
  {
    match Lookup(s, k)
    case Some(RStr(v)) => Some(v)
    case _ => None
  }

  /** Removes every key of `ks` and its expiry. */
  function DelKeys(s: Server, ks: set<string>): (s': Server)
    ensures s'.now == s.now
    ensures forall k :: Lookup(s', k) == (if k in ks then None else Lookup(s, k))
  {
    Server(map k | k in s.data && k !in ks :: s.data[k],
           map k | k in s.expires && k !in ks :: s.expires[k],
           s.now)
  }

  /** DEL k1 k2 ...: removes every listed key. */
  function Del(s: Server, keys: seq<string>): (s': Server)
    ensures forall k :: Lookup(s', k) == (if k in keys then None else Lookup(s, k))
  {
    DelKeys(s, set k | k in keys)
  }

  // --------------------------------------------------------------- sets

  /** SMEMBERS: the empty set for a missing key. */
  function SMembers(s: Server, k: string): (r: Result<set<string>, string>)
    ensures r.Err? <==> Exists(s, k) && !s.data[k].RSet?
    ensures r.Ok? ==> r.value == (if Exists(s, k) then s.data[k].members else {})
  {
    match Lookup(s, k)
    case None => Ok({})
    case Some(RSet(ms)) => Ok(ms)
    case Some(_) => Err(WrongType)
  }

  function SAdd(s: Server, k: string, m: string): (r: Result<Server, string>)
    ensures r.Err? <==> Exists(s, k) && !s.data[k].RSet?
    ensures r.Ok? ==> SMembers(r.value, k) == Ok(SMembers(s, k).value + {m})
    ensures r.Ok? ==> r.value.now == s.now && forall k2 | k2 != k :: Lookup(r.value, k2) == Lookup(s, k2)
    ensures r.Ok? ==> r.value.expires == s.expires || r.value.expires == s.expires - {k}
  {
    match Lookup(s, k)
    case None => var e: set<string> := {}; assert e + {m} == {m}; Ok(Write(s, k, RSet({m})))
    case Some(RSet(ms)) => Ok(Write(s, k, RSet(ms + {m})))
    case Some(_) => Err(WrongType)
  }

  /** SREM: a set left empty is deleted, as Redis does. */
  function SRem(s: Server, k: string, m: string): (r: Result<Server, string>)
    ensures r.Err? <==> Exists(s, k) && !s.data[k].RSet?
    ensures r.Ok? ==> SMembers(r.value, k) == Ok(SMembers(s, k).value - {m})
    ensures r.Ok? ==> r.value.now == s.now && forall k2 | k2 != k :: Lookup(r.value, k2) == Lookup(s, k2)
    ensures r.Ok? ==> r.value.expires == s.expires || r.value.expires == s.expires - {k}
  {
    match Lookup(s, k)
    case None => var e: set<string> := {}; assert e - {m} == e; Ok(s)
    case Some(RSet(ms)) => if ms - {m} == {} then Ok(Drop(s, k)) else Ok(Write(s, k, RSet(ms - {m})))
    case Some(_) => Err(WrongType)
  }

  // ------------------------------------------------------------- hashes

  /** HGETALL: the empty hash for a missing key. */
  function HGetAll(s: Server, k: string): (r: Result<map<string, string>, string>)
    ensures r.Err? <==> Exists(s, k) && !s.data[k].RHash?
    ensures r.Ok? ==> r.value == (if Exists(s, k) then s.data[k].fields else map[])
  {
    match Lookup(s, k)
    case None => Ok(map[])
    case Some(RHash(fs)) => Ok(fs)
    case Some(_) => Err(WrongType)
  }

  function HGet(s: Server, k: string, f: string): (r: Result<Option<string>, string>)
    ensures r.Err? <==> HGetAll(s, k).Err?
    ensures r.Ok? ==> r.value == (if f in HGetAll(s, k).value then Some(HGetAll(s, k).value[f]) else None)
  {
    match Lookup(s, k)
    case None => Ok(None)
    case Some(RHash(fs)) => Ok(if f in fs then Some(fs[f]) else None)
    case Some(_) => Err(WrongType)
  }

  function HSet(s: Server, k: string, f: string, v: string): (r: Result<Server, string>)
    ensures r.Err? <==> HGetAll(s, k).Err?
    ensures r.Ok? ==> HGetAll(r.value, k) == Ok(HGetAll(s, k).value[f := v])
    ensures r.Ok? ==> r.value.now == s.now && forall k2 | k2 != k :: Lookup(r.value, k2) == Lookup(s, k2)
    ensures r.Ok? ==> r.value.expires == s.expires || r.value.expires == s.expires - {k}
  {
    match Lookup(s, k)
    case None => Ok(Write(s, k, RHash(map[f := v])))
    case Some(RHash(fs)) => Ok(Write(s, k, RHash(fs[f := v])))
    case Some(_) => Err(WrongType)
  }

  /** HDEL: a hash left empty is deleted, as Redis does. */
  function HDel(s: Server, k: string, f: string): (r: Result<Server, string>)
    ensures r.Err? <==> HGetAll(s, k).Err?
    ensures r.Ok? ==> HGetAll(r.value, k) == Ok(HGetAll(s, k).value - {f})
    ensures r.Ok? ==> r.value.now == s.now && forall k2 | k2 != k :: Lookup(r.value, k2) == Lookup(s, k2)
    ensures r.Ok? ==> r.value.expires == s.expires || r.value.expires == s.expires - {k}
  {
    match Lookup(s, k)
    case None => var e: map<string, string> := map[]; assert e - {f} == e; Ok(s)
    case Some(RHash(fs)) => if fs - {f} == map[] then Ok(Drop(s, k)) else Ok(Write(s, k, RHash(fs - {f})))
    case Some(_) => Err(WrongType)
  }

  // ------------------------------------------------------------- expiry

  /** A key set with PX ms is there for the next ms - 1 milliseconds and gone
      from then on. */
  lemma SetPxExpires(s: Server, k: string, v: string, ms: int, dt: int)
    requires ms > 0 && dt >= 0
    ensures Get(Advance(SetPx(s, k, v, Px(ms)).value, s.now + dt), k) ==
            (if dt < ms then Ok(Some(v)) else Ok(None))
  {
  }

  /** Advancing the clock only ever makes keys disappear. */
  lemma AdvanceOnlyExpires(s: Server, t: int, k: string)
    ensures Exists(Advance(s, t), k) ==> Exists(s, k) && Lookup(Advance(s, t), k) == Lookup(s, k)
  {
  }
}
