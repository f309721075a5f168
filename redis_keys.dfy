/** The pure part of redis.js: prefix normalisation, key construction and
    the choice of expiry mode. */
module RedisKeys {
  import opened Wrappers
  import opened RedisServer

  // ------------------------------------------------------------ trimming

  /** The characters String.prototype.trim removes: ECMAScript WhiteSpace
      and LineTerminator code points. */
  predicate IsJsSpace(c: char)
  {
    || '\U{9}' <= c <= '\U{D}' || c == ' ' || c == '\U{A0}' || c == '\U{1680}'
    || '\U{2000}' <= c <= '\U{200A}' || c == '\U{2028}' || c == '\U{2029}'
    || c == '\U{202F}' || c == '\U{205F}' || c == '\U{3000}' || c == '\U{FEFF}'
  }

  function TrimStart(s: string): (r: string)
    ensures |r| <= |s| && r == s[|s| - |r|..]
    ensures forall n | 0 <= n < |s| - |r| :: IsJsSpace(s[n])
    ensures r != [] ==> !IsJsSpace(r[0])
  {
    if s != [] && IsJsSpace(s[0]) then TrimStart(s[1..]) else s
  }

  function TrimEnd(s: string): (r: string)
    ensures |r| <= |s| && r == s[..|r|]
    ensures forall n | |r| <= n < |s| :: IsJsSpace(s[n])
    ensures r != [] ==> !IsJsSpace(r[|r| - 1])
  {
    if s != [] && IsJsSpace(s[|s| - 1]) then TrimEnd(s[..|s| - 1]) else s
  }

  /** String.prototype.trim. */
  function Trim(s: string): string
  {
    TrimEnd(TrimStart(s))
  }

  /** trim drops exactly the surrounding white space: the result is a slice
      of the input, everything cut off on either side is white space, and the
      result neither starts nor ends with white space. */
  lemma TrimSlice(s: string)
    ensures exists lo, hi | 0 <= lo <= hi <= |s| ::
              && Trim(s) == s[lo..hi]
              && (forall n | 0 <= n < lo :: IsJsSpace(s[n]))
              && (forall n | hi <= n < |s| :: IsJsSpace(s[n]))
    ensures Trim(s) != [] ==> !IsJsSpace(Trim(s)[0]) && !IsJsSpace(Trim(s)[|Trim(s)| - 1])
  {
    var lo, hi := TrimBounds(s);
    TrimEnds(s);
  }

  lemma TrimBounds(s: string) returns (lo: nat, hi: nat)
    ensures lo <= hi <= |s| && Trim(s) == s[lo..hi]
    ensures forall n | 0 <= n < lo :: IsJsSpace(s[n])
    ensures forall n | hi <= n < |s| :: IsJsSpace(s[n])
  {
    var a := TrimStart(s);
    var b := TrimEnd(a);
    lo := |s| - |a|;
    hi := lo + |b|;
    assert b == s[lo..hi] by {
      assert s[lo..][..|b|] == s[lo..hi];
    }
    forall n | hi <= n < |s| ensures IsJsSpace(s[n]) {
      assert s[n] == a[n - lo];
    }
  }

  lemma TrimEnds(s: string)
    ensures Trim(s) != [] ==> !IsJsSpace(Trim(s)[0]) && !IsJsSpace(Trim(s)[|Trim(s)| - 1])
  {
    var a := TrimStart(s);
    if Trim(s) != [] {
      assert Trim(s)[0] == a[0];
    }
  }

  /** A string without surrounding white space is its own trim. */
  lemma TrimClean(s: string)
    requires s != [] ==> !IsJsSpace(s[0]) && !IsJsSpace(s[|s| - 1])
    ensures Trim(s) == s
  {
  }

  lemma TrimIdempotent(s: string)
    ensures Trim(Trim(s)) == Trim(s)
  {
    TrimSlice(s);
    TrimClean(Trim(s));
  }

  /** The trim of a string is empty exactly when it is all white space. */
  lemma TrimEmpty(s: string)
    ensures Trim(s) == [] <==> forall n | 0 <= n < |s| :: IsJsSpace(s[n])
  {
    TrimSlice(s);
    if forall n | 0 <= n < |s| :: IsJsSpace(s[n]) {
      AllSpaceTrimsAway(s);
    }
  }

  lemma AllSpaceTrimsAway(s: string)
    requires forall n | 0 <= n < |s| :: IsJsSpace(s[n])
    ensures TrimStart(s) == []
  {
  }

  // ------------------------------------------------------------- prefix

  /** `_prefix`: the trimmed configured prefix, or none when it is absent
      (given as ""), empty or all white space. */
  function Prefix(configPrefix: string): (p: Option<string>)
    ensures p.None? <==> forall n | 0 <= n < |configPrefix| :: IsJsSpace(configPrefix[n])
    ensures p.Some? ==> p.value == Trim(configPrefix) && p.value != []
    ensures p.Some? ==> !IsJsSpace(p.value[0]) && !IsJsSpace(p.value[|p.value| - 1])
  {
    TrimEmpty(configPrefix);
    TrimSlice(configPrefix);
    if Trim(configPrefix) == [] then None else Some(Trim(configPrefix))
  }

  // --------------------------------------------------------------- keys

  /** `_getKey(type, id)`; the empty id stands for every falsy id, and the
      type key is the key of the namespace itself. */
  function GetKey(prefix: Option<string>, t: string, id: string): string
  {
    var key := (if prefix.Some? then prefix.value + ":" else "") + t;
    if id != "" then key + ":" + id else key
  }

  function TypeKey(prefix: Option<string>, t: string): string
  {
    GetKey(prefix, t, "")
  }

  /** The shape of a key: `prefix:type[:id]`, or `type[:id]` without a
      prefix; a falsy id gives the type key. */
  lemma KeyShape(prefix: Option<string>, t: string, id: string)
    ensures prefix.Some? ==> TypeKey(prefix, t) == prefix.value + ":" + t
    ensures prefix.None? ==> TypeKey(prefix, t) == t
    ensures id != "" ==> GetKey(prefix, t, id) == TypeKey(prefix, t) + ":" + id
    ensures id == "" ==> GetKey(prefix, t, id) == TypeKey(prefix, t)
  {
  }

  /** A type name the keys can tell apart: it holds no ':'. */
  predicate PlainType(t: string)
  {
    ':' !in t
  }

  /** Position of the first ':' (the length when there is none). */
  function FirstColon(s: string): (n: nat)
    ensures n <= |s|
  {
    if s == [] || s[0] == ':' then 0 else 1 + FirstColon(s[1..])
  }

  lemma {:induction false} FirstColonAfter(a: string, x: string)
    requires ':' !in a
    ensures FirstColon(a + ":" + x) == |a|
  {
    if a != [] {
      assert (a + ":" + x)[1..] == a[1..] + ":" + x;
      FirstColonAfter(a[1..], x);
    }
  }

  /** Splitting at the first ':' of the part after the prefix. */
  lemma ColonSplit(a: string, x: string, b: string, y: string)
    requires ':' !in a && ':' !in b
    requires a + ":" + x == b + ":" + y
    ensures a == b && x == y
  {
    FirstColonAfter(a, x);
    FirstColonAfter(b, y);
    assert a == (a + ":" + x)[..|a|];
    assert b == (b + ":" + y)[..|b|];
    assert x == (a + ":" + x)[|a| + 1..];
    assert y == (b + ":" + y)[|b| + 1..];
  }

  /** After the prefix, a key of a colon-free type holds a ':' exactly when
      it is an item key. */
  lemma KeyRest(prefix: Option<string>, t: string, i: string)
    requires PlainType(t)
    ensures var pre := if prefix.Some? then prefix.value + ":" else "";
      && |pre| <= |GetKey(prefix, t, i)|
      && GetKey(prefix, t, i)[..|pre|] == pre
      && (i != "" ==> GetKey(prefix, t, i)[|pre|..] == t + ":" + i)
      && (i == "" ==> GetKey(prefix, t, i)[|pre|..] == t)
      && (':' in GetKey(prefix, t, i)[|pre|..] <==> i != "")
  {
    var pre := if prefix.Some? then prefix.value + ":" else "";
    var r := GetKey(prefix, t, i)[|pre|..];
    if i != "" {
      assert r == t + ":" + i;
      assert r[|t|] == ':';
    } else {
      assert r == t;
    }
  }

  /** With colon-free types, distinct (type, id) pairs get distinct keys and
      no item key equals any type key. */
  lemma GetKeyInjective(prefix: Option<string>, t1: string, i1: string, t2: string, i2: string)
    requires PlainType(t1) && PlainType(t2)
    requires GetKey(prefix, t1, i1) == GetKey(prefix, t2, i2)
    ensures t1 == t2 && i1 == i2
  {
    KeyRest(prefix, t1, i1);
    KeyRest(prefix, t2, i2);
    if i1 != "" && i2 != "" {
      ColonSplit(t1, i1, t2, i2);
    }
  }

  /** A colon in a type name lets a namespace key coincide with another
      type's item key. */
  lemma ColonTypesCollide()
    ensures GetKey(None, "a:b", "") == GetKey(None, "a", "b")
    ensures GetKey(Some("p"), "a:b", "c") == GetKey(Some("p"), "a", "b:c")
  {
  }

  // ------------------------------------------------------------- expiry

  /** `_rttl = config.inMemTTL || config.ttl`, as written: the boolean
      `inMemTTL` wins when set, so the Redis commands then receive `true` as
      their expiry. None stands for a falsy `_rttl` (hash mode). */
  function RttlAsWritten(inMemTtl: bool, ttl: int): (r: Option<Expiry>)
    ensures r.None? <==> !inMemTtl && ttl == 0
    ensures inMemTtl ==> r == Some(NonNumeric)
  {
    if inMemTtl then Some(NonNumeric) else if ttl != 0 then Some(Px(ttl)) else None
  }

  /** `_rttl` as the configuration intends it: Redis expiry on, with the
      configured ttl taken as milliseconds, only when the in-memory TTL is
      off. Where the code as written gives a numeric expiry, the two agree. */
  function Rttl(inMemTtl: bool, ttl: int): (r: Option<Expiry>)
    ensures r.Some? <==> !inMemTtl && ttl != 0
    ensures r.Some? ==> r.value == Px(ttl)
    ensures RttlAsWritten(inMemTtl, ttl) != Some(NonNumeric) ==> r == RttlAsWritten(inMemTtl, ttl)
  {
    if !inMemTtl && ttl != 0 then Some(Px(ttl)) else None
  }
}
