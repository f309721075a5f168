/** The Redis backend of redis.js: the hooks `_store`, `_fetch`, `_map`,
    `_list`, `_clear` and `_remove` as command sequences against a Redis
    server.

    With a truthy `_rttl` ("expiry mode") every entry is a string key
    `prefix:type:id` stored with `PX _rttl`, and the ids of a type are
    collected in the set at `prefix:type`. Without it ("hash mode") a type is
    the single hash `prefix:type` with one field per id. A `multi()` batch is
    one transition: when a command of the batch is refused, the batch reports
    that error and the server is left as it was. */
module RedisCache {
  import opened Wrappers
  import opened Json
  import opened RedisServer
  import opened RedisKeys
  import Collections
  import Envelope

  /** The derived settings of an instance: `_prefix` and `_rttl`. */
  datatype Conf = Conf(prefix: Option<string>, rttl: Option<Expiry>)

  function ItemKey(c: Conf, t: string, i: string): string
  {
    GetKey(c.prefix, t, i)
  }

  function TKey(c: Conf, t: string): string
  {
    TypeKey(c.prefix, t)
  }

  /** `reply ? JSON.parse(reply) : undefined`. */
  function ParseReply(reply: Option<string>): (r: Result<Value, string>)
    ensures reply.None? || reply.value == "" ==> r == Ok(Undefined)
    ensures reply.Some? && reply.value != "" && Parse(reply.value).Ok? ==> r == Ok(Defined(Parse(reply.value).value))
    ensures r.Err? ==> r.error == SyntaxErr
  {
    if reply.None? || reply.value == "" then Ok(Undefined)
    else
      var j :- Parse(reply.value);
      Ok(Defined(j))
  }

  /** `JSON.parse(reply)`, where a nil reply is turned into "null". */
  function ParseNullable(reply: Option<string>): (r: Result<Json, string>)
    ensures reply.None? ==> r == Ok(JNull)
    ensures reply.Some? ==> r == Parse(reply.value)
  {
    if reply.None? then Ok(JNull) else Parse(reply.value)
  }

  // -------------------------------------------------------------- hooks

  /** `_store`: SET item PX _rttl + SADD type id, or HSET type id. */
  function StoreOp(c: Conf, s: Server, t: string, i: string, p: Json): (Result<Json, string>, Server)
  {
    if c.rttl.Some? then
      match SetPx(s, ItemKey(c, t, i), Encode(p), c.rttl.value)
      case Err(e) => (Err(e), s)
      case Ok(s1) =>
        match SAdd(s1, TKey(c, t), i)
        case Err(e) => (Err(e), s)
        case Ok(s2) => (Ok(p), s2)
    else
      match HSet(s, TKey(c, t), i, Encode(p))
      case Err(e) => (Err(e), s)
      case Ok(s1) => (Ok(p), s1)
  }

  /** `_fetch`: PEXPIRE item _rttl + GET item, or HGET type id. */
  function FetchOp(c: Conf, s: Server, t: string, i: string): (Result<Value, string>, Server)
  {
    if c.rttl.Some? then
      match PExpire(s, ItemKey(c, t, i), c.rttl.value)
      case Err(e) => (Err(e), s)
      case Ok((s1, _)) =>
        match Get(s1, ItemKey(c, t, i))
        case Err(e) => (Err(e), s)
        case Ok(reply) => (ParseReply(reply), s1)
    else
      match HGet(s, TKey(c, t), i)
      case Err(e) => (Err(e), s)
      case Ok(reply) => (ParseReply(reply), s)
  }

  /** The MGET reply for one member, when truthy. */
  function ItemText(c: Conf, s: Server, t: string, id: string): (r: Option<string>)
    ensures r.Some? ==> r.value != ""
  {
    match StrAt(s, ItemKey(c, t, id))
    case Some(v) => if v != "" then Some(v) else None
    case None => None
  }

  predicate Broken(text: Option<string>)
  {
    text.Some? && Parse(text.value).Err?
  }

  /** The entries `_map` collects in expiry mode for the members `ids`: every
      member whose item key still holds a truthy string. */
  function MemberMap(c: Conf, s: Server, t: string, ids: set<string>): Result<map<string, Json>, string>
  {
    if exists id | id in ids :: Broken(ItemText(c, s, t, id)) then Err(SyntaxErr)
    else Ok(map id | id in ids && ItemText(c, s, t, id).Some? :: Parse(ItemText(c, s, t, id).value).value)
  }

  /** The entries `_map` collects in hash mode: every field, parsed. */
  function FieldMap(h: map<string, string>): Result<map<string, Json>, string>
  {
    if exists f | f in h :: Parse(h[f]).Err? then Err(SyntaxErr)
    else Ok(map f | f in h :: Parse(h[f]).value)
  }

  /** `_map`: SMEMBERS type + MGET items, or HGETALL type. It issues no
      command that changes the server. A type without members sends MGET an
      empty key list, which the server refuses. */
  function MapOp(c: Conf, s: Server, t: string): Result<map<string, Json>, string>
  {
    if c.rttl.Some? then
      var ids :- SMembers(s, TKey(c, t));
      if ids == {} then Err(MGetArity) else MemberMap(c, s, t, ids)
    else
      var h :- HGetAll(s, TKey(c, t));
      FieldMap(h)
  }

  function ItemKeys(c: Conf, t: string, ids: set<string>): set<string>
  {
    set id | id in ids :: ItemKey(c, t, id)
  }

  /** `_clear`: SMEMBERS type, then DEL items + DEL type; or DEL type. */
  function ClearOp(c: Conf, s: Server, t: string): (Result<(), string>, Server)
  {
    if c.rttl.Some? then
      match SMembers(s, TKey(c, t))
      case Err(e) => (Err(e), s)
      case Ok(ids) => (Ok(()), DelKeys(DelKeys(s, ItemKeys(c, t, ids)), {TKey(c, t)}))
    else
      (Ok(()), DelKeys(s, {TKey(c, t)}))
  }

  /** `_remove`: GET item + DEL item + SREM type id, or HGET + HDEL; the
      reply of the read is parsed afterwards. */
  function RemoveOp(c: Conf, s: Server, t: string, i: string): (Result<Json, string>, Server)
  {
    if c.rttl.Some? then
      match Get(s, ItemKey(c, t, i))
      case Err(e) => (Err(e), s)
      case Ok(reply) =>
        var s1 := Del(s, [ItemKey(c, t, i)]);
        match SRem(s1, TKey(c, t), i)
        case Err(e) => (Err(e), s)
        case Ok(s2) => (ParseNullable(reply), s2)
    else
      match HGet(s, TKey(c, t), i)
      case Err(e) => (Err(e), s)
      case Ok(reply) =>
        match HDel(s, TKey(c, t), i)
        case Err(e) => (Err(e), s)
        case Ok(s1) => (ParseNullable(reply), s1)
  }

  // ------------------------------------------------------------- keys

  /** With colon-free types the keys of distinct entries, and the keys of
      distinct types, are distinct, and no item key is a type key. */
  lemma KeysApart(c: Conf, t: string, i: string, t2: string, i2: string)
    requires PlainType(t) && PlainType(t2)
    ensures ItemKey(c, t, i) == ItemKey(c, t2, i2) <==> t == t2 && i == i2
    ensures TKey(c, t) == TKey(c, t2) <==> t == t2
    ensures i != "" ==> ItemKey(c, t, i) != TKey(c, t2)
  {
    if ItemKey(c, t, i) == ItemKey(c, t2, i2) {
      GetKeyInjective(c.prefix, t, i, t2, i2);
    }
    if TKey(c, t) == TKey(c, t2) {
      GetKeyInjective(c.prefix, t, "", t2, "");
    }
    if ItemKey(c, t, i) == TKey(c, t2) {
      GetKeyInjective(c.prefix, t, i, t2, "");
    }
  }

  // ------------------------------------------------------------ store

  /** Under the all-or-nothing batch model: when store is refused the server
      is unchanged. In expiry mode it is refused exactly when `_rttl` is not
      a positive integer or the type key holds something other than a set;
      in hash mode exactly when the type key holds something other than a
      hash. */
  lemma StoreRefusal(c: Conf, s: Server, t: string, i: string, p: Json)
    requires PlainType(t) && i != ""
    ensures StoreOp(c, s, t, i, p).0.Err? ==> StoreOp(c, s, t, i, p).1 == s
    ensures StoreOp(c, s, t, i, p).0.Ok? ==> StoreOp(c, s, t, i, p).0 == Ok(p)
    ensures c.rttl.Some? ==> (StoreOp(c, s, t, i, p).0.Err? <==>
      c.rttl.value.NonNumeric? || c.rttl.value.ms <= 0 || SMembers(s, TKey(c, t)).Err?)
    ensures c.rttl.None? ==> (StoreOp(c, s, t, i, p).0.Err? <==> HGetAll(s, TKey(c, t)).Err?)
  {
    KeysApart(c, t, i, t, "");
  }

  /** store then fetch gives the payload back. */
  lemma StoreFetch(c: Conf, s: Server, t: string, i: string, p: Json)
    requires PlainType(t) && i != ""
    requires StoreOp(c, s, t, i, p).0.Ok?
    ensures FetchOp(c, StoreOp(c, s, t, i, p).1, t, i).0 == Ok(Defined(p))
  {
    KeysApart(c, t, i, t, "");
    ParseEncode(p);
  }

  /** What fetch answers depends only on the item key (expiry mode) or the
      type hash's field (hash mode). */
  lemma FetchReads(c: Conf, s: Server, s': Server, t: string, i: string)
    requires c.rttl.Some? ==> Lookup(s', ItemKey(c, t, i)) == Lookup(s, ItemKey(c, t, i))
    requires c.rttl.None? ==> HGet(s', TKey(c, t), i) == HGet(s, TKey(c, t), i)
    ensures FetchOp(c, s', t, i).0 == FetchOp(c, s, t, i).0
  {
  }

  /** store changes what fetch answers for no other entry. */
  lemma StoreKeepsOthers(c: Conf, s: Server, t: string, i: string, p: Json, t2: string, i2: string)
    requires PlainType(t) && PlainType(t2) && i != "" && i2 != "" && (t2, i2) != (t, i)
    ensures FetchOp(c, StoreOp(c, s, t, i, p).1, t2, i2).0 == FetchOp(c, s, t2, i2).0
  {
    KeysApart(c, t2, i2, t, i);
    KeysApart(c, t2, i2, t, "");
    KeysApart(c, t2, "", t, "");
    FetchReads(c, s, StoreOp(c, s, t, i, p).1, t2, i2);
  }

  /** A stored entry lives in expiry mode for `_rttl` milliseconds: fetch
      answers the payload for the next `_rttl` - 1 ms and undefined from
      then on. */
  lemma StoreExpires(c: Conf, s: Server, t: string, i: string, p: Json, dt: int)
    requires PlainType(t) && i != "" && c.rttl.Some? && dt >= 0
    requires StoreOp(c, s, t, i, p).0.Ok?
    ensures FetchOp(c, Advance(StoreOp(c, s, t, i, p).1, s.now + dt), t, i).0 ==
            (if dt < c.rttl.value.ms then Ok(Defined(p)) else Ok(Undefined))
  {
    KeysApart(c, t, i, t, "");
    ParseEncode(p);
  }

  // ------------------------------------------------------------ fetch

  /** `_rttl` is a positive number of milliseconds, or off. */
  predicate Live(c: Conf)
  {
    c.rttl.Some? ==> c.rttl.value.Px? && c.rttl.value.ms > 0
  }

  /** In expiry mode a fetch restarts the lifetime of a live entry (its
      expiry becomes now + `_rttl`) and changes nothing when the entry is
      missing; in hash mode it changes nothing. No other key is affected. */
  lemma FetchSlides(c: Conf, s: Server, t: string, i: string)
    requires Live(c)
    ensures c.rttl.None? || !Exists(s, ItemKey(c, t, i)) ==>
      FetchOp(c, s, t, i).1 == s
    ensures c.rttl.Some? && !Exists(s, ItemKey(c, t, i)) ==>
      FetchOp(c, s, t, i).0 == Ok(Undefined)
    ensures c.rttl.Some? && Get(s, ItemKey(c, t, i)).Ok? && Exists(s, ItemKey(c, t, i)) ==>
      var s' := FetchOp(c, s, t, i).1;
      && Lookup(s', ItemKey(c, t, i)) == Lookup(s, ItemKey(c, t, i))
      && ItemKey(c, t, i) in s'.expires
      && s'.expires[ItemKey(c, t, i)] == s.now + c.rttl.value.ms
    ensures forall k | k != ItemKey(c, t, i) :: Lookup(FetchOp(c, s, t, i).1, k) == Lookup(s, k)
  {
  }

  // ------------------------------------------------------- readability

  /** What a reader of the backend can parse: JSON text, any set, a hash of
      JSON texts. */
  predicate Readable(v: RValue)
  {
    match v
    case RStr(x) => Parse(x).Ok?
    case RSet(_) => true
    case RHash(fs) => forall f | f in fs :: Parse(fs[f]).Ok?
  }

  predicate ReadableAt(s: Server, k: string)
  {
    Lookup(s, k).Some? ==> Readable(Lookup(s, k).value)
  }

  /** Every live key holds something readable. The hooks only ever write
      JSON text, so they keep this. */
  ghost predicate Clean(s: Server)
  {
    forall k :: ReadableAt(s, k)
  }

  lemma StoreClean(c: Conf, s: Server, t: string, i: string, p: Json)
    requires Clean(s)
    ensures Clean(StoreOp(c, s, t, i, p).1)
  {
    var s' := StoreOp(c, s, t, i, p).1;
    ParseEncode(p);
    forall k ensures ReadableAt(s', k) {
      assert ReadableAt(s, k);
    }
  }

  lemma FetchClean(c: Conf, s: Server, t: string, i: string)
    requires Clean(s)
    ensures Clean(FetchOp(c, s, t, i).1)
  {
    var s' := FetchOp(c, s, t, i).1;
    forall k ensures ReadableAt(s', k) {
      assert ReadableAt(s, k);
    }
  }

  lemma RemoveClean(c: Conf, s: Server, t: string, i: string)
    requires Clean(s)
    ensures Clean(RemoveOp(c, s, t, i).1)
  {
    var s' := RemoveOp(c, s, t, i).1;
    forall k ensures ReadableAt(s', k) {
      assert ReadableAt(s, k);
    }
  }

  lemma ClearClean(c: Conf, s: Server, t: string)
    requires Clean(s)
    ensures Clean(ClearOp(c, s, t).1)
  {
    var s' := ClearOp(c, s, t).1;
    forall k ensures ReadableAt(s', k) {
      assert ReadableAt(s, k);
    }
  }

  /** Time passing only removes keys. */
  lemma AdvanceClean(s: Server, now: int)
    requires Clean(s)
    ensures Clean(Advance(s, now))
  {
    forall k ensures ReadableAt(Advance(s, now), k) {
      assert ReadableAt(s, k);
      AdvanceOnlyExpires(s, now, k);
    }
  }

  /** On a clean server no reply fails to parse: fetch, map and remove can
      be refused only by the server. */
  lemma CleanParses(c: Conf, s: Server, t: string, i: string)
    requires Clean(s)
    ensures FetchOp(c, s, t, i).0.Err? ==> FetchOp(c, s, t, i).0.error != SyntaxErr
    ensures MapOp(c, s, t).Err? ==> MapOp(c, s, t).error != SyntaxErr
    ensures RemoveOp(c, s, t, i).0.Err? ==> RemoveOp(c, s, t, i).0.error != SyntaxErr
  {
    assert ReadableAt(s, ItemKey(c, t, i));
    assert ReadableAt(s, TKey(c, t));
    forall id ensures !Broken(ItemText(c, s, t, id)) {
      assert ReadableAt(s, ItemKey(c, t, id));
    }
  }

  // -------------------------------------------------------------- map

  /** Every entry `_map` answers is what fetch answers for that id. */
  lemma MapAgreesWithFetch(c: Conf, s: Server, t: string, id: string)
    requires Live(c)
    requires MapOp(c, s, t).Ok? && id in MapOp(c, s, t).value
    ensures FetchOp(c, s, t, id).0 == Ok(Defined(MapOp(c, s, t).value[id]))
  {
    if c.rttl.None? {
      var h := HGetAll(s, TKey(c, t)).value;
      assert Parse(h[id]).Ok?;
      assert h[id] != "";
    }
  }

  /** The member map depends only on what the members' item keys hold. */
  lemma MemberMapFrame(c: Conf, s: Server, s': Server, t: string, ids: set<string>)
    requires forall id | id in ids :: ItemText(c, s', t, id) == ItemText(c, s, t, id)
    ensures MemberMap(c, s', t, ids) == MemberMap(c, s, t, ids)
  {
    if MemberMap(c, s, t, ids).Ok? {
      var m, m' := MemberMap(c, s, t, ids).value, MemberMap(c, s', t, ids).value;
      assert m'.Keys == m.Keys;
      assert m' == m;
    }
  }

  /** Adding a member whose item holds the encoding of p adds the entry p. */
  lemma MemberMapInsert(c: Conf, s: Server, s': Server, t: string, ids: set<string>, i: string, p: Json)
    requires MemberMap(c, s, t, ids).Ok?
    requires forall id | id in ids && id != i :: ItemText(c, s', t, id) == ItemText(c, s, t, id)
    requires ItemText(c, s', t, i) == Some(Encode(p))
    ensures MemberMap(c, s', t, ids + {i}) == Ok(MemberMap(c, s, t, ids).value[i := p])
  {
    ParseEncode(p);
    var m := MemberMap(c, s, t, ids).value;
    forall id | id in ids + {i} ensures !Broken(ItemText(c, s', t, id)) {
      if id != i {
        assert !Broken(ItemText(c, s, t, id));
      }
    }
    var m' := MemberMap(c, s', t, ids + {i}).value;
    forall id ensures id in m' <==> id in m[i := p] {
      if id != i && id in ids {
        assert ItemText(c, s', t, id) == ItemText(c, s, t, id);
      }
    }
    forall id | id in m' ensures m'[id] == m[i := p][id] {
      if id != i {
        assert ItemText(c, s', t, id) == ItemText(c, s, t, id);
      }
    }
    Collections.SameEntries(m', m[i := p]);
  }

  /** Setting one field: the entry map gains its parse, or fails when the
      field's text does not parse. */
  lemma FieldMapSet(h: map<string, string>, f: string, v: string)
    requires FieldMap(h).Ok?
    ensures FieldMap(h[f := v]) ==
      if Parse(v).Err? then Err(SyntaxErr) else Ok(FieldMap(h).value[f := Parse(v).value])
  {
    var h' := h[f := v];
    if Parse(v).Ok? {
      assert !exists g | g in h' :: Parse(h'[g]).Err? by {
        forall g | g in h' ensures Parse(h'[g]).Ok? {
          if g != f {
            assert Parse(h[g]).Ok?;
          }
        }
      }
      var m, m' := FieldMap(h).value, FieldMap(h').value;
      assert m'.Keys == m.Keys + {f};
      assert m' == m[f := Parse(v).value];
    } else {
      assert Parse(h'[f]).Err?;
    }
  }

  /** Setting a field to the encoding of p sets the entry p. */
  lemma FieldMapInsert(h: map<string, string>, i: string, p: Json)
    requires FieldMap(h).Ok?
    ensures FieldMap(h[i := Encode(p)]) == Ok(FieldMap(h).value[i := p])
  {
    ParseEncode(p);
    FieldMapSet(h, i, Encode(p));
  }

  /** One more member: the member map gains its entry when its item holds
      a truthy string, and fails when that string does not parse. */
  lemma MemberMapStep(c: Conf, s: Server, t: string, ids: set<string>, id: string)
    requires MemberMap(c, s, t, ids).Ok?
    ensures var text := ItemText(c, s, t, id);
      MemberMap(c, s, t, ids + {id}) ==
        if Broken(text) then Err(SyntaxErr)
        else if text.Some? then Ok(MemberMap(c, s, t, ids).value[id := Parse(text.value).value])
        else Ok(MemberMap(c, s, t, ids).value)
  {
    var text := ItemText(c, s, t, id);
    if !Broken(text) {
      assert !exists x | x in ids + {id} :: Broken(ItemText(c, s, t, x)) by {
        forall x | x in ids + {id} ensures !Broken(ItemText(c, s, t, x)) {
          if x != id {
            assert !Broken(ItemText(c, s, t, x));
          }
        }
      }
      var m, m' := MemberMap(c, s, t, ids).value, MemberMap(c, s, t, ids + {id}).value;
      if text.Some? {
        assert m'.Keys == m.Keys + {id};
        assert m' == m[id := Parse(text.value).value];
      } else {
        assert m'.Keys == m.Keys;
        assert m' == m;
      }
    } else {
      assert id in ids + {id};
    }
  }

  /** After a store, `_map` answers the previous map with the new entry. */
  lemma MapAfterStore(c: Conf, s: Server, t: string, i: string, p: Json)
    requires PlainType(t) && i != ""
    requires StoreOp(c, s, t, i, p).0.Ok? && MapOp(c, s, t).Ok?
    ensures MapOp(c, StoreOp(c, s, t, i, p).1, t) == Ok(MapOp(c, s, t).value[i := p])
  {
    var s' := StoreOp(c, s, t, i, p).1;
    KeysApart(c, t, i, t, "");
    ParseEncode(p);
    if c.rttl.Some? {
      var ids := SMembers(s, TKey(c, t)).value;
      forall id | id in ids && id != i ensures ItemText(c, s', t, id) == ItemText(c, s, t, id) {
        KeysApart(c, t, id, t, i);
      }
      assert SMembers(s', TKey(c, t)).value == ids + {i};
      assert ItemText(c, s', t, i) == Some(Encode(p));
      MemberMapInsert(c, s, s', t, ids, i, p);
    } else {
      FieldMapInsert(HGetAll(s, TKey(c, t)).value, i, p);
    }
  }

  /** A type without a key maps to nothing in hash mode; in expiry mode its
      MGET of no keys is refused. */
  lemma MapEmpty(c: Conf, s: Server, t: string)
    requires !Exists(s, TKey(c, t))
    ensures c.rttl.None? ==> MapOp(c, s, t) == Ok(map[])
    ensures c.rttl.Some? ==> MapOp(c, s, t) == Err(MGetArity)
  {
  }

  /** The first store into a type without members: `_map` then answers the
      new entry alone. */
  lemma MapAfterFirstStore(c: Conf, s: Server, t: string, i: string, p: Json)
    requires PlainType(t) && i != "" && c.rttl.Some?
    requires StoreOp(c, s, t, i, p).0.Ok? && SMembers(s, TKey(c, t)) == Ok({})
    ensures MapOp(c, s, t) == Err(MGetArity)
    ensures MapOp(c, StoreOp(c, s, t, i, p).1, t) == Ok(map[i := p])
  {
    var s' := StoreOp(c, s, t, i, p).1;
    KeysApart(c, t, i, t, "");
    ParseEncode(p);
    assert SMembers(s', TKey(c, t)).value == {i};
    assert MemberMap(c, s, t, {}) == Ok(map[]);
    MemberMapInsert(c, s, s', t, {}, i, p);
    assert {} + {i} == {i};
  }

  // ----------------------------------------------------------- remove

  /** `_remove` answers what fetch would have answered before it, with
      undefined turned into null, and afterwards fetch answers undefined. */
  lemma RemoveAnswersFetch(c: Conf, s: Server, t: string, i: string)
    requires Live(c) && PlainType(t) && i != ""
    requires RemoveOp(c, s, t, i).0.Ok?
    ensures var r := RemoveOp(c, s, t, i).0.value;
      || FetchOp(c, s, t, i).0 == Ok(Defined(r))
      || (FetchOp(c, s, t, i).0 == Ok(Undefined) && r == JNull)
    ensures FetchOp(c, RemoveOp(c, s, t, i).1, t, i).0 == Ok(Undefined)
  {
    KeysApart(c, t, i, t, "");
  }

  /** Store then remove gives the payload back. */
  lemma StoreRemove(c: Conf, s: Server, t: string, i: string, p: Json)
    requires PlainType(t) && i != ""
    requires StoreOp(c, s, t, i, p).0.Ok?
    ensures RemoveOp(c, StoreOp(c, s, t, i, p).1, t, i).0 == Ok(p)
  {
    KeysApart(c, t, i, t, "");
    ParseEncode(p);
  }

  /** remove changes what fetch answers for no other entry. */
  lemma RemoveKeepsOthers(c: Conf, s: Server, t: string, i: string, t2: string, i2: string)
    requires PlainType(t) && PlainType(t2) && i != "" && i2 != "" && (t2, i2) != (t, i)
    ensures FetchOp(c, RemoveOp(c, s, t, i).1, t2, i2).0 == FetchOp(c, s, t2, i2).0
  {
    KeysApart(c, t2, i2, t, i);
    KeysApart(c, t2, i2, t, "");
    KeysApart(c, t2, "", t, "");
    FetchReads(c, s, RemoveOp(c, s, t, i).1, t2, i2);
  }

  // ------------------------------------------------------------ clear

  /** After `_clear` the namespace maps to nothing in hash mode, and in
      expiry mode `_map` is refused for want of members; every id it listed
      (every id, in hash mode) fetches undefined. */
  lemma ClearEmpties(c: Conf, s: Server, t: string)
    requires Live(c) && PlainType(t)
    requires ClearOp(c, s, t).0.Ok?
    ensures c.rttl.None? ==> MapOp(c, ClearOp(c, s, t).1, t) == Ok(map[])
    ensures c.rttl.Some? ==> MapOp(c, ClearOp(c, s, t).1, t) == Err(MGetArity)
    ensures c.rttl.Some? ==> forall id | id in SMembers(s, TKey(c, t)).value ::
      FetchOp(c, ClearOp(c, s, t).1, t, id).0 == Ok(Undefined)
    ensures c.rttl.None? ==> forall id :: FetchOp(c, ClearOp(c, s, t).1, t, id).0 == Ok(Undefined)
  {
    MapEmpty(c, ClearOp(c, s, t).1, t);
  }

  /** `_clear` of one type leaves every key of another type alone. */
  lemma ClearKeepsOthers(c: Conf, s: Server, t: string, t2: string, id: string)
    requires PlainType(t) && PlainType(t2) && t != t2
    ensures Lookup(ClearOp(c, s, t).1, ItemKey(c, t2, id)) == Lookup(s, ItemKey(c, t2, id))
  {
    KeysApart(c, t2, id, t, "");
    if c.rttl.Some? && SMembers(s, TKey(c, t)).Ok? {
      forall x ensures ItemKey(c, t2, id) != ItemKey(c, t, x) {
        KeysApart(c, t2, id, t, x);
      }
    }
  }

  /** Hence fetch of another type answers as before. */
  lemma ClearKeepsOtherFetch(c: Conf, s: Server, t: string, t2: string, i2: string)
    requires PlainType(t) && PlainType(t2) && t != t2
    ensures FetchOp(c, ClearOp(c, s, t).1, t2, i2).0 == FetchOp(c, s, t2, i2).0
  {
    ClearKeepsOthers(c, s, t, t2, i2);
    ClearKeepsOthers(c, s, t, t2, "");
    FetchReads(c, s, ClearOp(c, s, t).1, t2, i2);
  }

  /** And so does `_map` of another type. */
  lemma ClearKeepsOtherMap(c: Conf, s: Server, t: string, t2: string)
    requires PlainType(t) && PlainType(t2) && t != t2
    ensures MapOp(c, ClearOp(c, s, t).1, t2) == MapOp(c, s, t2)
  {
    var s' := ClearOp(c, s, t).1;
    ClearKeepsOthers(c, s, t, t2, "");
    if c.rttl.Some? && SMembers(s, TKey(c, t2)).Ok? {
      var ids := SMembers(s, TKey(c, t2)).value;
      forall id | id in ids ensures ItemText(c, s', t2, id) == ItemText(c, s, t2, id) {
        ClearKeepsOthers(c, s, t, t2, id);
      }
      MemberMapFrame(c, s, s', t2, ids);
    }
  }

  // ---------------------------------------------------------- instance

  /** The derived settings, as the constructor computes them (with the
      corrected `_rttl`). */
  function Configure(inMemTtl: bool, ttl: int, configPrefix: string): (c: Conf)
    ensures c.rttl == Rttl(inMemTtl, ttl)
    ensures c.prefix == Prefix(configPrefix)
  {
    Conf(Prefix(configPrefix), Rttl(inMemTtl, ttl))
  }

  /** The constructor hands `{ttl: config.inMemTTL}` to the envelope: with the
      corrected `_rttl`, a configured ttl switches on exactly one of the two
      expiry mechanisms, the envelope's timers or Redis's own expiry. */
  lemma OneExpiryMechanism(inMemTtl: bool, ttl: int)
    ensures ttl != 0 ==> (Envelope.EffectiveTtl(inMemTtl, ttl) != 0 <==> Rttl(inMemTtl, ttl).None?)
    ensures ttl == 0 ==> Envelope.EffectiveTtl(inMemTtl, ttl) == 0 && Rttl(inMemTtl, ttl).None?
  {
  }

  /** The `_rttl` defect: with `inMemTTL: true` the expiry sent to Redis is
      `true`, so SET refuses it and no value is ever written. Under the
      all-or-nothing batch model the whole store is refused. */
  lemma InMemTtlBreaksStore(prefix: Option<string>, ttl: int, s: Server, t: string, i: string, p: Json)
    ensures var c := Conf(prefix, RttlAsWritten(true, ttl));
      StoreOp(c, s, t, i, p) == (Err(NotInteger), s)
  {
  }

  /** The `for (let key in result)` loop of `_map` in hash mode: every field
      parsed in turn; the text that fails to parse ends it with the parse
      error. */
  method ParseFields(h: map<string, string>) returns (r: Result<map<string, Json>, string>)
    ensures r == FieldMap(h)
  {
    var fields := Collections.Enumerate(h.Keys);
    var seen: map<string, string> := map[];
    var m: map<string, Json> := map[];
    for x := 0 to |fields|
      invariant seen == map f | f in fields[..x] :: h[f]
      invariant FieldMap(seen) == Ok(m)
    {
      var f := fields[x];
      SeenStep(h, fields, x);
      FieldMapSet(seen, f, h[f]);
      var parsed := Parse(h[f]);
      if parsed.Err? {
        FieldMapSubsetErr(h, seen[f := h[f]]);
        return Err(parsed.error);
      }
      seen := seen[f := h[f]];
      m := m[f := parsed.value];
    }
    assert seen == h by {
      assert fields[..|fields|] == fields;
    }
    r := Ok(m);
  }

  /** The fields of h the loop has read after one more name. */
  lemma SeenStep(h: map<string, string>, fields: seq<string>, x: nat)
    requires x < |fields| && forall f | f in fields :: f in h
    ensures (map g | g in fields[..x + 1] :: h[g]) == (map g | g in fields[..x] :: h[g])[fields[x] := h[fields[x]]]
  {
    assert fields[..x + 1] == fields[..x] + [fields[x]];
  }

  /** A field that fails to parse makes every larger hash fail. */
  lemma FieldMapSubsetErr(h: map<string, string>, part: map<string, string>)
    requires forall f | f in part :: f in h && h[f] == part[f]
    requires FieldMap(part).Err?
    ensures FieldMap(h).Err?
  {
    var f :| f in part && Parse(part[f]).Err?;
    assert f in h && Parse(h[f]).Err?;
  }

  /** The ids a loop over `ids` has visited before position x. */
  function SeenIds(ids: seq<string>, x: nat): set<string>
    requires x <= |ids|
  {
    set n | 0 <= n < x :: ids[n]
  }

  /** A Redis instance: its derived settings and the server it talks to.
      The envelope of cache.js is the Envelope module; this class holds the
      hooks it calls. */
  class RedisCache {
    const name: string
    const kind: string
    /** The envelope's `_ttl`: the constructor hands it `inMemTTL` as the
        TTL feature flag. */
    const envelopeTtl: int
    const conf: Conf
    var server: Server

    constructor (name: string, configType: string, inMemTtl: bool, ttl: int, configPrefix: string, server: Server)
      ensures this.name == name && kind == configType
      ensures envelopeTtl == Envelope.EffectiveTtl(inMemTtl, ttl)
      ensures conf == Configure(inMemTtl, ttl, configPrefix)
      ensures this.server == server
    {
      this.name := name;
      kind := configType;
      envelopeTtl := Envelope.EffectiveTtl(inMemTtl, ttl);
      conf := Configure(inMemTtl, ttl, configPrefix);
      this.server := server;
    }

    method Store(t: string, i: string, p: Json) returns (r: Result<Json, string>)
      modifies this
      ensures (r, server) == StoreOp(conf, old(server), t, i, p)
      ensures Clean(old(server)) ==> Clean(server)
    {
      if Clean(server) {
        StoreClean(conf, server, t, i, p);
      }
      if conf.rttl.Some? {
        var written := SetPx(server, ItemKey(conf, t, i), Encode(p), conf.rttl.value);
        if written.Err? {
          return Err(written.error);
        }
        var added := SAdd(written.value, TKey(conf, t), i);
        if added.Err? {
          return Err(added.error);
        }
        server := added.value;
      } else {
        var written := HSet(server, TKey(conf, t), i, Encode(p));
        if written.Err? {
          return Err(written.error);
        }
        server := written.value;
      }
      r := Ok(p);
    }

    method Fetch(t: string, i: string) returns (r: Result<Value, string>)
      modifies this
      ensures (r, server) == FetchOp(conf, old(server), t, i)
      ensures Clean(old(server)) ==> Clean(server)
    {
      if Clean(server) {
        FetchClean(conf, server, t, i);
      }
      if conf.rttl.Some? {
        var touched := PExpire(server, ItemKey(conf, t, i), conf.rttl.value);
        if touched.Err? {
          return Err(touched.error);
        }
        var reply := Get(touched.value.0, ItemKey(conf, t, i));
        if reply.Err? {
          return Err(reply.error);
        }
        server := touched.value.0;
        r := ParseReply(reply.value);
      } else {
        var reply := HGet(server, TKey(conf, t), i);
        if reply.Err? {
          return Err(reply.error);
        }
        r := ParseReply(reply.value);
      }
    }

    /** `_map`; it issues no command that changes the server. */
    method Map(t: string) returns (r: Result<map<string, Json>, string>)
      ensures r == MapOp(conf, server, t)
    {
      if conf.rttl.Some? {
        var members := SMembers(server, TKey(conf, t));
        if members.Err? {
          return Err(members.error);
        }
        r := MapMembers(t, members.value);
      } else {
        var fields := HGetAll(server, TKey(conf, t));
        if fields.Err? {
          return Err(fields.error);
        }
        r := ParseFields(fields.value);
      }
    }

    /** The MGET of the members' item keys and the loop over its replies:
        every truthy reply parsed into the entry of its id; the first reply
        that fails to parse ends the loop with the parse error. */
    method MapMembers(t: string, members: set<string>) returns (r: Result<map<string, Json>, string>)
      ensures members == {} ==> r == Err(MGetArity)
      ensures members != {} ==> r == MemberMap(conf, server, t, members)
    {
      var ids := Collections.Enumerate(members);
      var keys := seq(|ids|, n requires 0 <= n < |ids| => ItemKey(conf, t, ids[n]));
      var replies := MGet(server, keys);
      if replies.Err? {
        return Err(replies.error);
      }
      var texts := replies.value;
      var m: map<string, Json> := map[];
      assert MemberMap(conf, server, t, SeenIds(ids, 0)) == Ok(m);
      for x := 0 to |ids|
        invariant MemberMap(conf, server, t, SeenIds(ids, x)) == Ok(m)
      {
        assert texts[x] == StrAt(server, ItemKey(conf, t, ids[x]));
        MemberMapNext(conf, server, t, members, ids, x, m);
        if texts[x].Some? && texts[x].value != "" {
          var parsed := Parse(texts[x].value);
          if parsed.Err? {
            return Err(parsed.error);
          }
          m := m[ids[x] := parsed.value];
        }
      }
      SeenAll(ids, members);
      r := Ok(m);
    }

    /** `_list`: the values of `_map`, in the order of its keys. */
    method List(t: string) returns (ghost ids: seq<string>, r: Result<seq<Json>, string>)
      ensures r.Err? <==> MapOp(conf, server, t).Err?
      ensures r.Err? ==> r.error == MapOp(conf, server, t).error
      ensures r.Ok? ==> Collections.Enumerates(ids, MapOp(conf, server, t).value.Keys)
      ensures r.Ok? ==> r.value == Collections.ValuesAt(MapOp(conf, server, t).value, ids)
    {
      var mapped := Map(t);
      if mapped.Err? {
        return [], Err(mapped.error);
      }
      var m := mapped.value;
      var keys := Collections.Enumerate(m.Keys);
      ids := keys;
      var vals := [];
      for n := 0 to |keys|
        invariant vals == Collections.ValuesAt(m, keys[..n])
      {
        Collections.ValuesAtPrefix(m, keys, n);
        vals := vals + [m[keys[n]]];
      }
      assert keys[..|keys|] == keys;
      r := Ok(vals);
    }

    method Clear(t: string) returns (r: Result<(), string>)
      modifies this
      ensures (r, server) == ClearOp(conf, old(server), t)
      ensures Clean(old(server)) ==> Clean(server)
    {
      if Clean(server) {
        ClearClean(conf, server, t);
      }
      assert (set k | k in [TKey(conf, t)]) == {TKey(conf, t)};
      if conf.rttl.Some? {
        var members := SMembers(server, TKey(conf, t));
        if members.Err? {
          return Err(members.error);
        }
        var ids := Collections.Enumerate(members.value);
        var keys := seq(|ids|, n requires 0 <= n < |ids| => ItemKey(conf, t, ids[n]));
        ItemKeysListed(conf, t, members.value, ids, keys);
        server := Del(Del(server, keys), [TKey(conf, t)]);
      } else {
        server := Del(server, [TKey(conf, t)]);
      }
      r := Ok(());
    }

    method Remove(t: string, i: string) returns (r: Result<Json, string>)
      modifies this
      ensures (r, server) == RemoveOp(conf, old(server), t, i)
      ensures Clean(old(server)) ==> Clean(server)
    {
      if Clean(server) {
        RemoveClean(conf, server, t, i);
      }
      if conf.rttl.Some? {
        var reply := Get(server, ItemKey(conf, t, i));
        if reply.Err? {
          return Err(reply.error);
        }
        var deleted := Del(server, [ItemKey(conf, t, i)]);
        var removed := SRem(deleted, TKey(conf, t), i);
        if removed.Err? {
          return Err(removed.error);
        }
        server := removed.value;
        r := ParseNullable(reply.value);
      } else {
        var reply := HGet(server, TKey(conf, t), i);
        if reply.Err? {
          return Err(reply.error);
        }
        // HDEL is refused exactly when HGET is
        var removed := HDel(server, TKey(conf, t), i);
        server := removed.value;
        r := ParseNullable(reply.value);
      }
    }
  }

  /** A broken member makes every larger member set fail. */
  lemma MemberMapSubsetErr(c: Conf, s: Server, t: string, ids: set<string>, part: set<string>)
    requires part <= ids
    requires MemberMap(c, s, t, part).Err?
    ensures MemberMap(c, s, t, ids).Err?
  {
    var id :| id in part && Broken(ItemText(c, s, t, id));
    assert id in ids;
  }

  /** One more reply of `_map`'s loop over the MGET replies. */
  lemma MemberMapNext(c: Conf, s: Server, t: string, members: set<string>, ids: seq<string>, x: nat, m: map<string, Json>)
    requires Collections.Enumerates(ids, members) && x < |ids|
    requires MemberMap(c, s, t, SeenIds(ids, x)) == Ok(m)
    ensures var text := StrAt(s, ItemKey(c, t, ids[x]));
      && (text.Some? && text.value != "" && Parse(text.value).Err? ==> MemberMap(c, s, t, members).Err?)
      && (text.Some? && text.value != "" && Parse(text.value).Ok? ==>
            MemberMap(c, s, t, SeenIds(ids, x + 1)) == Ok(m[ids[x] := Parse(text.value).value]))
      && (text.None? || text.value == "" ==> MemberMap(c, s, t, SeenIds(ids, x + 1)) == Ok(m))
  {
    assert SeenIds(ids, x + 1) == SeenIds(ids, x) + {ids[x]};
    MemberMapStep(c, s, t, SeenIds(ids, x), ids[x]);
    if MemberMap(c, s, t, SeenIds(ids, x + 1)).Err? {
      MemberMapSubsetErr(c, s, t, members, SeenIds(ids, x + 1));
    }
  }

  lemma SeenAll(ids: seq<string>, members: set<string>)
    requires Collections.Enumerates(ids, members)
    ensures SeenIds(ids, |ids|) == members
  {
    forall id | id in members ensures id in SeenIds(ids, |ids|) {
      var n :| 0 <= n < |ids| && ids[n] == id;
    }
  }

  /** The key list `_clear` deletes is exactly the members' item keys. */
  lemma ItemKeysListed(c: Conf, t: string, members: set<string>, ids: seq<string>, keys: seq<string>)
    requires Collections.Enumerates(ids, members)
    requires |keys| == |ids| && forall n | 0 <= n < |ids| :: keys[n] == ItemKey(c, t, ids[n])
    ensures (set k | k in keys) == ItemKeys(c, t, members)
  {
    forall k | k in ItemKeys(c, t, members) ensures k in keys {
      var id :| id in members && k == ItemKey(c, t, id);
      assert id in ids;
      var n :| 0 <= n < |ids| && ids[n] == id;
      assert keys[n] == k;
    }
  }
}
