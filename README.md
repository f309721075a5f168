# Cheevr/Cache in Dafny

A model of the caching library Cheevr/Cache. The library stores payloads under
a (type, id) address. It can keep them in memory, in Redis, or on disk, and
each backend offers `store`, `fetch`, `map`, `list`, `remove` and `clear`.

- **Envelope** (`cache.js`). This is the base class every backend extends. It
  keeps the TTL timer registry `_timeouts`. `store` arms a timer for the entry
  and `fetch` re-arms it. `remove` cancels the entry's timer and `clear`
  cancels the type's timers. Node's timers are explicit:
  - `setTimeout` hands out a fresh handle;
  - `clearTimeout` drops the handle from the pending set;
  - `Tick(now)` fires every due timer, and each fired timer runs `remove`.

  The data movement goes to an abstract backend map.
- **Memory** (`memory.js`). `MemoryCache` keeps a nested dictionary
  type -> id -> payload.
- **RedisKeys, RedisServer, RedisCache** (`redis.js`).
  - RedisKeys covers the `_prefix` normalisation, `_getKey` and the choice of
    `_rttl`.
  - RedisServer is the part of Redis the hooks use: strings with `PX` expiry,
    sets and hashes, against a server clock.
  - RedisCache issues each hook's commands. With `_rttl` set, an entry is a
    string key with an expiry and the type key is the set of its ids. Without
    it, a type is one hash.
- **Paths, FileSystem, FileCache** (`file.js`).
  - Paths covers `path.isAbsolute`, `path.join`, `split('/')` and how a path
    resolves into components.
  - FileSystem models the synchronous `fs` calls with Node's error codes, over
    a set of directories and a map of files.
  - FileCache covers `_mkDir` and the six hooks. Its class has the `path`
    getter and the default root `cache`.
- **Json** stands for `JSON.stringify` and `JSON.parse`. It is a concrete text
  codec over a payload datatype, with a proved round trip.

Each state-changing operation is a method of a class. The method is proved
equal to a function of the old state, and the properties are lemmas about
those functions. The loops of the source (`_mkDir`, `_map`, `_list`,
`_clear`, the hash loop of Redis `_map`, the timer loop) are `for` and `while`
loops with their invariants.

I/O, callbacks and promises are not modelled: each operation returns its
answer or its error as a `Result`. The working directory and the clock are
parameters.

## Model

| member | source | states |
|---|---|---|
| Envelope.TimerDelay | cache.js:57 | the delay Node uses always lies in 1..2^31-1, and is `_ttl` itself when `_ttl` lies in that range |
| Envelope.EffectiveTtl | cache.js:23-24 | `_ttl` is non-zero exactly when the feature and the configured ttl are both on, and is then the ttl in seconds times 1000 |
| Envelope.TimersForRegistered | cache.js:55-57 | in a consistent registry at most one timer is pending per entry: none when nothing is registered, else exactly the registered handle |
| Envelope.SoleSlot | cache.js:55-57 | in a consistent registry each pending handle sits in exactly one slot, the one of the entry it removes, and that entry's namespace exists |
| Envelope.TypeHandlesPending | cache.js:144-146 | the handles registered under a type are exactly the pending timers that remove an entry of that type |
| Envelope.Arm | cache.js:55-57 | after arming, the entry's pending timer is the new one with the new deadline, and the namespace exists |
| Envelope.ArmKeepsWf | cache.js:55-57 | arming keeps the registry consistent |
| Envelope.ArmTimers | cache.js:56-57 | after arming exactly one timer (the new handle) is pending for the entry, and no other entry's timer changes |
| Envelope.RearmAsWritten | cache.js:76-77 | fetch as written throws exactly when `_timeouts[type]` does not exist, and otherwise re-arms the entry |
| Envelope.Rearm | cache.js:76-77 | corrected fetch re-arms where the namespace exists, changes nothing elsewhere, and agrees with the written code wherever that does not throw |
| Envelope.Disarm | cache.js:125-128 | remove unregisters the entry when its namespace exists, keeps the namespaces and the handle counter, and drops pending timers only |
| Envelope.DisarmKeepsWf | cache.js:125-128 | remove keeps the registry consistent, leaves no timer pending for the entry, and keeps every other entry's timer |
| Envelope.DisarmTypeAsWritten | cache.js:144-146 | clear as written throws exactly when `_timeouts[type]` exists |
| Envelope.DisarmType | cache.js:144-146 | corrected clear drops the namespace and unregisters every entry of the type, cancelling pending timers only; it agrees with the written code where that does not throw |
| Envelope.DisarmTypeKeepsWf | cache.js:144-146 | corrected clear keeps the registry consistent, leaves no pending timer of the type, and keeps the timers of other types |
| Envelope.StoreTimers | cache.js:54-58 | with TTL off, store leaves the registry alone; with TTL on, the entry's timer is due one TTL after now |
| Envelope.FetchTimers | cache.js:75-78 | with TTL off or no namespace, fetch leaves the registry alone; otherwise the entry's timer is due one TTL after now |
| Envelope.Namespace | cache.js:108-114 | the map of a type holds exactly the ids stored under that type, with their payloads |
| Envelope.Put | cache.js:59-63 | the backend now holds the payload at the key, and no other key changes |
| Envelope.Delete | cache.js:129-133 | the key is gone, and no other key changes |
| Envelope.DropType | cache.js:148-152 | every key of the type is gone, and every other key is kept |
| Envelope.FireNothing | cache.js:57 | firing no timer changes neither the registry nor the backend |
| Envelope.FireTimersWf | cache.js:125-128 | firing any set of pending timers (each running remove) keeps the registry consistent |
| Envelope.FireStepTimers | cache.js:125-128 | one more timer firing is the remove of its entry applied to the registry left by the earlier ones |
| Envelope.FireStepEntries | cache.js:129-133 | one more timer firing deletes exactly its entry from the backend |
| Envelope.ExpireTimersPending | cache.js:57 | the timers left after a tick are exactly the pending ones not yet due, unchanged |
| Envelope.FiredSlotDue | cache.js:57 | an entry is fired by a tick exactly when its registered timer is due |
| Envelope.ExpireKeeps | cache.js:57 | a tick keeps every entry whose timer is not yet due, with its timer and the namespaces, and keeps the registry consistent |
| Envelope.ExpireDrops | cache.js:57 | a tick removes every entry whose timer is due, together with its timer |
| Envelope.ExpiryWindow | cache.js:57 | an entry whose timer falls due one TTL after now is still there for every instant before that, and is gone at that instant |
| Envelope.StoreArms | cache.js:54-58 | store with TTL on keeps the registry consistent, creates the namespace, and arms the entry one TTL ahead |
| Envelope.TouchRearms | cache.js:74-78 | storing or fetching an existing entry again re-arms it one TTL ahead and keeps its payload |
| Envelope.TouchThenExpire | cache.js:74-78 | after a store or fetch an entry lives for exactly one more TTL |
| Envelope.StoreThenWait | cache.js:54-58 | an entry stored at t0 is still there, with its namespace, at every instant less than one TTL later |
| Envelope.SlidingExpiry | cache.js:53-84 | an entry stored, then stored or fetched again within the TTL, is still there at every instant less than one TTL after that access, and is gone one TTL after it |
| Envelope.NoTtlNoTimers | cache.js:54 | with TTL off, store and fetch change no timer |
| Envelope.FetchBeforeStoreThrows | cache.js:76 | with TTL on, fetching a type before anything was stored under it throws |
| Envelope.ClearAfterStoreThrows | cache.js:145 | with TTL on, clearing a type after a store into it throws |
| Envelope.ArmDueWithin | cache.js:57 | arming a timer within the window keeps every pending timer within it |
| Envelope.StoreConsistent | cache.js:54-58 | store keeps the instance invariant: a consistent registry, no timers without TTL, every timer due within one TTL |
| Envelope.FetchConsistent | cache.js:75-78 | fetch keeps the instance invariant |
| Envelope.DisarmConsistent | cache.js:125-128 | remove keeps the instance invariant |
| Envelope.DisarmTypeConsistent | cache.js:144-146 | corrected clear keeps the instance invariant |
| Envelope.ExpireConsistent | cache.js:57 | firing the due timers re-establishes the invariant at the new time |
| Envelope.Cache.constructor | cache.js:18-26 | a new instance has its name, type and `_ttl`, no timers, and the invariant |
| Envelope.Cache.Store | cache.js:53-64 | store keeps the invariant, arms the entry's timer as StoreTimers says, writes the payload, and answers it |
| Envelope.Cache.Fetch | cache.js:74-84 | corrected fetch keeps the invariant and the data, re-arms as FetchTimers says, and answers the payload or undefined |
| Envelope.Cache.List | cache.js:93-99 | list answers the type's payloads, one per stored id, in some order, and changes nothing |
| Envelope.Cache.Map | cache.js:108-114 | map answers exactly the type's id -> payload associations and changes nothing |
| Envelope.Cache.Remove | cache.js:124-134 | remove disarms the entry, deletes it, answers what it held, and keeps the invariant |
| Envelope.Cache.Clear | cache.js:143-153 | corrected clear cancels the type's timers, drops its entries, and keeps the invariant |
| Envelope.Cache.Tick | cache.js:57 | reaching a time fires every due timer, one remove after another in any order; the result is ExpireTimers/ExpireEntries, and the invariant holds at the new time |
| Memory.Stored | memory.js:14-18 | after store, the type holds the payload at the id, and the set of types gains the type |
| Memory.Cleared | memory.js:36-39 | after clear, the type is gone and every other type is kept |
| Memory.Removed | memory.js:47-50 | remove throws exactly when the type map is missing; otherwise the id is gone and the types are kept |
| Memory.StoreOverwrites | memory.js:14-18 | store overwrites exactly one id: other ids keep their payloads, and a new type holds that id alone |
| Memory.OtherTypesUntouched | memory.js:14-50 | store, clear and remove on one type leave every other type's map unchanged |
| Memory.ClearProperties | memory.js:36-39 | after clear, get answers undefined; clearing twice equals clearing once; clearing an absent type changes nothing |
| Memory.RemoveProperties | memory.js:47-50 | removing an absent id changes nothing; other ids are kept; remove is idempotent |
| Memory.StoreRemoveRoundTrip | memory.js:14-50 | storing then removing a fresh id in an existing type restores the state |
| Memory.Walkthrough | memory.js:14-50 | two stores, a remove and a clear answer what each step promises, and removing from a cleared type throws |
| Memory.MemoryCache.constructor | memory.js:2-4 | a new instance holds no types |
| Memory.MemoryCache.Store | memory.js:14-18 | the new state is Stored of the old one |
| Memory.MemoryCache.Get | memory.js:26-29 | get answers the type's map exactly when the type exists, otherwise undefined, and changes nothing |
| Memory.MemoryCache.Clear | memory.js:36-39 | the new state is Cleared of the old one |
| Memory.MemoryCache.Remove | memory.js:47-50 | remove throws, changing nothing, exactly when the type is missing; otherwise the new state is Removed of the old one |
| Json.Encode | redis.js:22 | an encoding is never empty and starts with one of the seven kind tags |
| Json.ValueRoundTrip | redis.js:22-43 | parsing the encoding of any payload, followed by any text, gives back the payload and the rest |
| Json.DecodeEncode | file.js:55-61 | `JSON.parse(JSON.stringify(p))` is p for every payload |
| Json.EncodeInjective | file.js:55 | distinct payloads have distinct encodings |
| Json.Parse | file.js:61 | a rejected text throws SyntaxError |
| Json.ParseEncode | file.js:55-61 | what a backend writes it reads back, and it never writes the empty string |
| RedisKeys.TrimStart | redis.js:13 | what trimming the start cuts off is white space, what is left is a suffix, and it starts with non-space |
| RedisKeys.TrimEnd | redis.js:13 | what trimming the end cuts off is white space, what is left is a prefix, and it ends with non-space |
| RedisKeys.TrimSlice | redis.js:13 | trim returns a slice of its input; everything cut on either side is white space; the result neither starts nor ends with white space |
| RedisKeys.TrimClean | redis.js:13 | a string without surrounding white space is its own trim |
| RedisKeys.TrimIdempotent | redis.js:13 | trimming twice equals trimming once |
| RedisKeys.TrimEmpty | redis.js:13 | a trim is empty exactly when the input is all white space |
| RedisKeys.Prefix | redis.js:13 | there is no prefix exactly when the configured one is absent or all white space; otherwise it is the trimmed, non-empty configured prefix |
| RedisKeys.KeyShape | redis.js:145-149 | a type key is `prefix:type` (`type` without a prefix), and an item key is the type key followed by `:id`; a falsy id gives the type key |
| RedisKeys.GetKeyInjective | redis.js:145-149 | with colon-free types, equal keys mean equal (type, id) pairs |
| RedisKeys.ColonTypesCollide | redis.js:145-149 | a type name with a colon lets two different entries share a key |
| RedisKeys.RttlAsWritten | redis.js:12 | as written, `_rttl` is off exactly when `inMemTTL` and ttl are both off, and it is the boolean `true` whenever `inMemTTL` is set |
| RedisKeys.Rttl | redis.js:12 | corrected, Redis expiry is on exactly when the in-memory TTL is off and a ttl is set, with that ttl as PX; it agrees with the written code wherever that gives a number |
| RedisServer.Lookup | redis.js:16-135 | a key answers its value exactly when it exists and its deadline has not passed |
| RedisServer.Write | redis.js:16-135 | a write sets the key and changes no other key |
| RedisServer.Drop | redis.js:114-135 | the key is gone and no other key changes |
| RedisServer.Advance | redis.js:35-52 | the clock only moves forward, and the data is unchanged |
| RedisServer.Get | redis.js:40-41 | GET answers nil for a missing key, an error for a non-string key, and the string otherwise |
| RedisServer.SetPx | redis.js:22 | SET PX is refused exactly for a non-integer or non-positive expiry; otherwise the key holds the text, with its deadline now + ms, and no other key changes |
| RedisServer.PExpire | redis.js:40 | PEXPIRE replies 1 exactly for an existing key; it resets that key's deadline (a non-positive one deletes it), changes nothing for a missing key, and is refused for a non-integer |
| RedisServer.MGet | redis.js:61 | MGET is refused exactly for an empty key list; otherwise it answers, in order, each key's string value, or nil |
| RedisServer.DelKeys | redis.js:100-101 | every listed key is gone and every other key is kept |
| RedisServer.Del | redis.js:100-107 | DEL removes exactly the listed keys |
| RedisServer.SMembers | redis.js:58 | SMEMBERS answers the set, the empty set for a missing key, and an error for a key of another kind |
| RedisServer.SAdd | redis.js:23 | SADD adds the member, is refused for a key of another kind, and changes no other key |
| RedisServer.SRem | redis.js:122 | SREM removes the member, is refused for a key of another kind, and changes no other key |
| RedisServer.HGetAll | redis.js:73 | HGETALL answers the hash, the empty hash for a missing key, and an error for another kind |
| RedisServer.HGet | redis.js:47 | HGET answers the field of the hash, or nil, and is refused exactly when HGETALL is |
| RedisServer.HSet | redis.js:28 | HSET sets the field, is refused for another kind, and changes no other key |
| RedisServer.HDel | redis.js:129 | HDEL removes the field, is refused for another kind, and changes no other key |
| RedisServer.SetPxExpires | redis.js:22 | a key set with PX ms is there for the next ms - 1 milliseconds and gone from then on |
| RedisServer.AdvanceOnlyExpires | redis.js:35-52 | time passing only makes keys disappear |
| RedisCache.ParseReply | redis.js:43 | a nil or empty reply is undefined; otherwise it is the reply's parse, and a failure is a SyntaxError |
| RedisCache.ParseNullable | redis.js:124 | `JSON.parse` of a nil reply is null; otherwise it is the reply's parse |
| RedisCache.ItemText | redis.js:67 | a reply that `_map` keeps is never the empty string |
| RedisCache.KeysApart | redis.js:145-149 | with colon-free types: item keys are equal exactly for equal entries, type keys exactly for equal types, and no item key is a type key |
| RedisCache.StoreRefusal | redis.js:16-33 | under the all-or-nothing batch model: a refused store leaves the server unchanged; a successful one answers the payload; in expiry mode it is refused exactly for a non-numeric or non-positive `_rttl` or a type key of another kind; in hash mode, exactly for a type key that is not a hash |
| RedisCache.StoreFetch | redis.js:16-52 | a fetch after a successful store answers the payload |
| RedisCache.FetchReads | redis.js:35-52 | what fetch answers depends only on the item key (expiry mode) or the type hash's field (hash mode) |
| RedisCache.StoreKeepsOthers | redis.js:16-52 | a store changes what fetch answers for no other entry |
| RedisCache.StoreExpires | redis.js:16-52 | in expiry mode a stored entry fetches as the payload for `_rttl` - 1 ms and as undefined from then on |
| RedisCache.FetchSlides | redis.js:35-52 | in expiry mode a fetch restarts a live entry's lifetime, and changes nothing for a missing entry or in hash mode; it touches no other key |
| RedisCache.StoreClean | redis.js:16-33 | store keeps every live key readable |
| RedisCache.FetchClean | redis.js:35-52 | fetch keeps every live key readable |
| RedisCache.RemoveClean | redis.js:114-135 | remove keeps every live key readable |
| RedisCache.ClearClean | redis.js:92-112 | clear keeps every live key readable |
| RedisCache.AdvanceClean | redis.js:35-52 | time passing keeps every live key readable |
| RedisCache.CleanParses | redis.js:35-135 | on a readable server, fetch, map and remove fail only with the server's error, never with a parse error |
| RedisCache.MapAgreesWithFetch | redis.js:54-81 | every entry `_map` answers is what fetch answers for that id |
| RedisCache.MemberMapFrame | redis.js:57-71 | the member map depends only on what the members' item keys hold |
| RedisCache.MemberMapInsert | redis.js:57-71 | adding a member whose item holds the encoding of p adds the entry p |
| RedisCache.FieldMapSet | redis.js:73-78 | setting a field adds its parse to the entry map, or fails when it does not parse |
| RedisCache.FieldMapInsert | redis.js:73-78 | setting a field to the encoding of p sets the entry p |
| RedisCache.MemberMapStep | redis.js:66-68 | one more member adds its entry when its reply is truthy, and fails when the reply does not parse |
| RedisCache.MapAfterStore | redis.js:16-81 | after a store into a type whose `_map` succeeds, `_map` answers the earlier map plus the new entry |
| RedisCache.MapAfterFirstStore | redis.js:16-81 | in expiry mode a type without members has a rejecting `_map`; after a first store its `_map` answers the new entry alone |
| RedisCache.MapEmpty | redis.js:54-81 | a type with no key maps to nothing in hash mode; in expiry mode its SMEMBERS is empty, so the MGET of no keys is refused and `_map` rejects |
| RedisCache.RemoveAnswersFetch | redis.js:114-135 | remove answers what fetch would have answered, with undefined as null; afterwards fetch answers undefined |
| RedisCache.StoreRemove | redis.js:16-135 | removing a stored entry answers its payload |
| RedisCache.RemoveKeepsOthers | redis.js:114-135 | a remove changes what fetch answers for no other entry |
| RedisCache.ClearEmpties | redis.js:92-112 | after clear the type maps to nothing in hash mode, and `_map` rejects for want of members in expiry mode; every id it listed (every id, in hash mode) fetches undefined |
| RedisCache.ClearKeepsOthers | redis.js:92-112 | clearing one type leaves every key of another type alone |
| RedisCache.ClearKeepsOtherFetch | redis.js:92-112 | clearing one type changes no fetch of another |
| RedisCache.ClearKeepsOtherMap | redis.js:92-112 | clearing one type changes no `_map` of another |
| RedisCache.Configure | redis.js:6-14 | an instance's settings are the corrected `_rttl` and the normalised `_prefix` |
| RedisCache.OneExpiryMechanism | redis.js:7-12 | with the corrected `_rttl`, a configured ttl switches on exactly one of the envelope's timers and Redis's own expiry |
| RedisCache.InMemTtlBreaksStore | redis.js:12-22 | as written, with `inMemTTL: true` the SET of every store is refused, so no value is written; under the all-or-nothing batch model the whole store is refused and the server is unchanged |
| RedisCache.ParseFields | redis.js:73-78 | the hash-mode loop gives the fields' parses, or the parse error if any field does not parse |
| RedisCache.SeenStep | redis.js:74-76 | the part of the hash the loop has read grows by one field per step |
| RedisCache.FieldMapSubsetErr | redis.js:74-76 | a field that fails to parse makes every larger hash fail |
| RedisCache.MemberMapSubsetErr | redis.js:66-68 | a member whose reply fails to parse makes every larger member set fail |
| RedisCache.MemberMapNext | redis.js:66-68 | one more MGET reply in `_map`'s loop adds its entry, fails, or is skipped when falsy |
| RedisCache.SeenAll | redis.js:66-68 | after the loop every member has been visited |
| RedisCache.ItemKeysListed | redis.js:98 | the key list `_clear` deletes is exactly the members' item keys |
| RedisCache.RedisCache.constructor | redis.js:6-14 | the envelope's TTL is taken from `inMemTTL`; the settings are Configure's |
| RedisCache.RedisCache.Store | redis.js:16-33 | the answer and new server are StoreOp's, and readability is kept |
| RedisCache.RedisCache.Fetch | redis.js:35-52 | the answer and new server are FetchOp's, and readability is kept |
| RedisCache.RedisCache.Map | redis.js:54-81 | the answer is MapOp's, and the server is unchanged |
| RedisCache.RedisCache.MapMembers | redis.js:57-71 | the MGET is refused for an empty member set; otherwise the MGET and its loop answer the member map |
| RedisCache.RedisCache.List | redis.js:83-90 | list fails exactly as `_map` does and otherwise answers the map's values, one per key, in some order of its keys |
| RedisCache.RedisCache.Clear | redis.js:92-112 | the answer and new server are ClearOp's, and readability is kept |
| RedisCache.RedisCache.Remove | redis.js:114-135 | the answer and new server are RemoveOp's, and readability is kept |
| Paths.Split | file.js:37 | a split has at least one part |
| Paths.SplitParts | file.js:37 | no part of a split holds a '/' |
| Paths.SplitSnoc | file.js:37-38 | splitting `a + '/' + b` gives the parts of a followed by the parts of b |
| Paths.SplitJoin | file.js:37 | joining then splitting parts without '/' gives them back |
| Paths.JoinSplit | file.js:37 | splitting then joining gives the string back |
| Paths.SplitName | file.js:37 | a string without '/' splits into itself |
| Paths.NonEmpty | file.js:37-39 | the resolved components are non-empty parts of the split |
| Paths.NonEmptyConcat | file.js:37-39 | dropping empty parts distributes over concatenation |
| Paths.CompsNames | file.js:37-39 | every component of a resolved path is a proper name |
| Paths.NameComps | file.js:53 | a proper name resolves to itself alone |
| Paths.JoinComps | file.js:53 | `path.join(a, b)` resolves to the components of a followed by those of b |
| Paths.Root | file.js:26 | the root is the configured path, or `cache` when none is given; it is never empty |
| Paths.Resolve | file.js:35 | an absolute directory is kept; a relative one resolves under the working directory |
| Paths.DefaultRoot | file.js:26-35 | without a configured path the cache lives in `cache` under the working directory |
| FileSystem.Missing | file.js:39 | the code for a path that does not resolve is ENOTDIR or ENOENT |
| FileSystem.Children | file.js:71 | a name is inside a directory exactly when the directory followed by it is a directory or a file |
| FileSystem.MkDir | file.js:39 | mkdir succeeds exactly when the path does not exist and its parent is a directory; otherwise EEXIST or the missing code; files are unchanged and only that directory is added |
| FileSystem.WriteFile | file.js:55 | a write succeeds exactly when the path is not a directory and its parent is one; otherwise EISDIR or the missing code; it sets only that file |
| FileSystem.ReadFile | file.js:61 | a read succeeds exactly for a file, with its contents; otherwise EISDIR or the missing code |
| FileSystem.ReadDir | file.js:71 | readdir succeeds exactly for a directory, with its entry names; otherwise ENOTDIR or the missing code |
| FileSystem.Unlink | file.js:111 | unlink succeeds exactly for a file and removes only it; otherwise EISDIR or the missing code |
| FileSystem.RmDir | file.js:100 | rmdir succeeds exactly for an empty directory other than the root, and removes only it |
| FileSystem.MkDirWf | file.js:39 | mkdir of a properly named path keeps the file system well formed |
| FileSystem.WriteFileWf | file.js:55 | writing a properly named file keeps the file system well formed |
| FileSystem.UnlinkWf | file.js:111 | unlink keeps the file system well formed |
| FileSystem.RmDirWf | file.js:100 | rmdir keeps the file system well formed |
| FileSystem.WriteRead | file.js:55-61 | what is written reads back; every other file reads as before |
| FileCache.MkPrefixesFrame | file.js:37-40 | the walk of `_mkDir` leaves files alone and adds only prefixes of the path as directories |
| FileCache.MkPrefixesOk | file.js:37-40 | a completed walk leaves every prefix of the path in place |
| FileCache.MkPrefixesSnoc | file.js:38-39 | the walk to one more component is the walk to the parent, then an existence check and a mkdir |
| FileCache.MkPrefixesStops | file.js:39 | a refused mkdir ends the walk with its error |
| FileCache.MkPrefixesExisting | file.js:39 | a walk along existing prefixes changes nothing |
| FileCache.MkPrefixesTwice | file.js:34-42 | running `_mkDir` again after it succeeded changes nothing |
| FileCache.Ancestors | file.js:39 | in a well formed file system every proper prefix of an entry is a directory |
| FileCache.MkPrefixesRefused | file.js:34-42 | in a well formed file system, `_mkDir` throws exactly when a proper prefix of the path is a file; it then changes nothing; it keeps the file system well formed; on success every proper prefix is a directory |
| FileCache.MakeDirs | file.js:34-42 | the loop of `_mkDir` performs the walk along the resolved path, and on success answers the resolved path |
| FileCache.WalkStep | file.js:37-38 | appending `'/' + entry` extends the resolved path by that entry, or by nothing when it is empty |
| FileCache.WalkEnd | file.js:39 | a walk refused at one entry is refused for the whole path |
| FileCache.Layout | file.js:53-60 | with proper names, a type's directory sits in the root and an entry's file sits in its type's directory |
| FileCache.StoreFetch | file.js:52-62 | a successful store answers the payload, and a later fetch reads it back |
| FileCache.StoreRefusal | file.js:52-57 | in a well formed file system whose root exists, store succeeds exactly when the type's directory is not a file and the entry's file is not a directory; the error is ENOTDIR or EISDIR accordingly; a refusal changes nothing; well-formedness is kept |
| FileCache.StoreTwice | file.js:52-57 | storing the same entry twice leaves what storing it once left |
| FileCache.StoreKeepsOthers | file.js:52-62 | with proper names, a store changes what no other entry fetches |
| FileCache.SameMissing | file.js:61 | error codes agree on two file systems whose files agree along the path |
| FileCache.RemoveAnswersFetch | file.js:108-113 | remove answers exactly what fetch would have; when that throws nothing changes; otherwise the entry's file is gone and fetch then answers false |
| FileCache.StoreRemove | file.js:52-113 | removing a stored entry answers its payload, and a later fetch answers false |
| FileCache.RemoveCorrupt | file.js:108-113 | an entry whose file does not parse cannot be removed: remove throws SyntaxError and the file stays |
| FileCache.MapOverEntries | file.js:73-76 | the loop of `_map` succeeds exactly when every listed file reads and parses; its entries are those files keyed by name; a failure is the failure of one of them |
| FileCache.MapOrderFree | file.js:71-76 | two listings of the same names both succeed, with the same map, or both fail |
| FileCache.MapOrderSameCause | file.js:71-76 | when a listing fails, its error is that of a file every listing of the same names holds |
| FileCache.MapOverOk | file.js:73-76 | a successful loop holds exactly the listed names, with their files' parses |
| FileCache.MapAgreesWithFetch | file.js:69-78 | every entry of `_map` is what fetch answers for its name |
| FileCache.StoreListed | file.js:52-71 | a stored entry's directory lists it |
| FileCache.MapAfterStore | file.js:52-78 | after a store, a successful `_map` of the type holds the entry with its payload |
| FileCache.ListMatchesMap | file.js:69-89 | `_list` fails as `_map` does and otherwise answers the map's values in listing order |
| FileCache.UnknownType | file.js:69-101 | for a type whose directory does not exist, `_map`, `_list` and `_clear` throw ENOENT or ENOTDIR, and `_clear` changes nothing |
| FileCache.EntryInDir | file.js:60 | with a proper name, an entry's file sits in its type's directory |
| FileCache.ClearOverFrame | file.js:97-99 | the removes of `_clear` create no directory and delete only files of the listed entries |
| FileCache.ClearOverGone | file.js:97-99 | when the removes all succeed, none of the listed entries' files is left |
| FileCache.Untouched | file.js:97-99 | a file that no remove touched reads as before |
| FileCache.ClearOverOk | file.js:97-99 | the removes all succeed when every listed file reads and parses |
| FileCache.ClearEmpties | file.js:95-101 | after a successful `_clear` the type's directory is gone and every entry of the type fetches false |
| FileCache.ClearSucceeds | file.js:95-101 | in a well formed file system, `_clear` of a listed type succeeds when every entry in its directory is a file that parses |
| FileCache.UnderType | file.js:60 | an entry's file path runs through the root and then the type |
| FileCache.ClearOpFrame | file.js:95-101 | `_clear` removes no directory but the type's own and only files of the listed entries, and keeps the contents of every other file |
| FileCache.FetchReads | file.js:59-62 | fetch reads only the entry's file and whether the directories on its way are files |
| FileCache.ClearKeepsOthers | file.js:95-101 | clearing one type changes no fetch of another |
| FileCache.FileCache.constructor | file.js:24-27 | a new instance has its name, an envelope TTL with the feature on, its root and its disk |
| FileCache.FileCache.Open | file.js:24-27 | construction runs `_mkDir` on the configured root (default `cache`); on success the instance's path is the resolved root, and its disk is what the walk left |
| FileCache.FileCache.Store | file.js:52-57 | the answer and new disk are StoreOp's; well-formedness is kept under StoreRefusal's conditions |
| FileCache.FileCache.Fetch | file.js:59-62 | the answer is FetchOp's, and nothing changes |
| FileCache.FileCache.Map | file.js:69-78 | the answer is MapOp's over the directory's listing, in some order of its names |
| FileCache.FileCache.List | file.js:80-89 | the answer is ListOp's over the directory's listing, in some order of its names |
| FileCache.FileCache.Remove | file.js:108-113 | the answer and new disk are RemoveOp's, and well-formedness is kept |
| FileCache.FileCache.Clear | file.js:95-101 | the answer and new disk are ClearOp's over the directory's listing |
| Collections.Enumerate | file.js:73 | a set is listed once per element, in some order |
| Collections.ValuesAt | file.js:83-87 | the values of a map read in a given key order |

## Left out

- Callbacks and promises. Every hook answers a `Result` synchronously. The
  `cb` argument of each envelope and memory operation is not modelled, so an
  operation given a callback does not return its promise.
- Real timers. Node's event loop is the explicit `Tick(now)`, and the clock
  is a field. Nothing models timers firing in the middle of another
  operation.
- JSON text format. Payloads are a Json datatype with integer numbers only.
  The codec is a simple self-delimiting notation, not the JSON grammar, so
  floating point, `undefined` members and key order of parsed objects are not
  modelled.
- Envelope.Cache.Store: the backend is an abstract map that never refuses a
  write. The backends' own errors are modelled in RedisCache and FileCache
  but are not joined to the envelope.
- `MULTI` batches are modelled as all-or-nothing. When one command of a
  batch is refused, the whole batch reports that error and the server is
  left unchanged. Redis itself runs the other commands of the batch, and
  the client calls the `exec` callback without an error, putting each
  command's error among the replies. So `_store`, `_fetch` and `_clear`
  resolve even when a command of their batch is refused.
- RedisCache.StoreRefusal: its expiry-mode refusals hold only under the
  all-or-nothing batch model. In the program a SET refused inside the
  batch still lets SADD add the id, and store resolves with the payload.
- RedisCache.InMemTtlBreaksStore: states the refusal under the
  all-or-nothing batch model. In the program the store resolves with the
  payload and SADD adds the id, but no value is written, so fetch answers
  undefined.
- RedisServer.HGetAll: a missing hash answers the empty map. The client may
  hand back `null` for it, which `_map` then resolves unchanged.
- RedisServer.Del: DEL with an empty key list, which `_clear` sends for a
  type without members, is modelled as deleting nothing. Redis refuses it,
  or the client drops it.
- RedisCache.MapOp, RedisCache.ClearOp: `err && reject(err)` after
  SMEMBERS lets the callback go on with an undefined reply, which throws
  inside it (`result1.map` in `_map` at redis.js:59-60 and in `_clear` at
  redis.js:96-97).
  The model ends with the server's error.
- RedisCache.RedisCache.List: answers the values in some order of the map's
  keys. JavaScript's `for...in` order (integer-like ids ascending, then the
  other ids in insertion order) is not modelled.
- A `JSON.parse` that throws inside a Redis callback is unhandled in the
  source and leaves the promise pending. The model reports SyntaxError
  instead.
- Envelope.EffectiveTtl, RedisKeys.RttlAsWritten, RedisKeys.Rttl: the
  configured ttl is an integer. A fractional ttl in seconds, such as 1.5,
  which the envelope turns into 1500 ms timers, is not modelled, nor Redis
  refusing a fractional `PX` such as 0.5 as not an integer.
- RedisKeys.Rttl: the configured ttl goes to `PX` as milliseconds, exactly
  as written. The envelope takes ttl in seconds. The model does not decide
  which unit the configuration means.
- Ids and types are strings. The tests use numeric ids, which make
  `path.join` throw in file.js and go through `String()` in redis.js.
- Paths.PathJoin: `path.join` normalisation of `.` and `..` is left out.
  Only the POSIX separator is modelled, and repeated separators give empty
  components that resolution ignores.
- FileCache: the disk is a value held by one instance, so two instances
  sharing one directory do not see each other's writes. `readdirSync` order
  is left open and returned as a ghost sequence of names.
- FileCache.MapOrderFree: does not state that two listings that both fail
  fail with the same error. The first failing file, and so the error
  (EISDIR, ENOENT or SyntaxError), depends on `readdirSync` order.
- FileCache: `cwd` is a parameter of Open rather than `process.cwd()` read
  at load time.
- FileCache.FetchOp: a stored `false` reads exactly like a missing entry,
  because `_fetch` answers `false` for a missing file. The model has the same
  behaviour and records no separate property for it.
- FileSystem.WriteRead: states that other files read as before only in
  whether they succeed and in their contents. It does not state the error
  code of a failing read, which turns from ENOENT to ENOTDIR when the new
  file lies on its path.
- Envelope.RearmAsWritten, Envelope.DisarmTypeAsWritten: `_timeouts` is
  a plain object, so a type named after a property of `Object.prototype`
  (`constructor`, `toString`, `__proto__`, ...) finds an inherited value
  there. `clear('constructor')` then throws even with TTL off, and fetch
  writes its handle onto that inherited object. The model treats every type
  name as absent until stored.
- Memory.Stored, Memory.Removed, Memory.MemoryCache.Get: `_queues` is a
  plain object too, so the same inherited names are present from the start.
  For example `remove('toString', id)` does not throw, while `Removed`
  answers an error.
- Memory.MemoryCache.Get: memory.js:28 hands back the live `_queues[type]`
  object, which later `store` and `remove` calls change. The model returns
  the map's value at the time of the call, so aliasing is not modelled.
- `name` and `type` getters in cache.js (lines 32-42) are fields of the
  class.

## Findings

| source | as written | input that shows it | evidently intended | confidence | as-written member | corrected member |
|---|---|---|---|---|---|---|
| cache.js:145 | `this._timeouts[type].forEach(clearTimeout)` on a plain object, which has no `forEach`, so clear throws TypeError whenever the type has a timeouts object | TTL on: `store('t', '1', p)` then `clear('t')` | cancel every timer registered under the type and drop the namespace | high, not executed | Envelope.DisarmTypeAsWritten, Envelope.ClearAfterStoreThrows | Envelope.DisarmType, Envelope.DisarmTypeKeepsWf |
| cache.js:76 | fetch reads `this._timeouts[type][id]` without creating `this._timeouts[type]`, so fetch throws TypeError for a type nothing was stored under | TTL on, new instance: `fetch('t', '1')` | reset the timer of an entry whose namespace exists, and otherwise just fetch | high, not executed | Envelope.RearmAsWritten, Envelope.FetchBeforeStoreThrows | Envelope.Rearm, Envelope.Cache.Fetch |
| redis.js:12 | `_rttl = config.inMemTTL \|\| config.ttl` makes `_rttl` the boolean `true` whenever `inMemTTL` is set, and `true` goes to Redis as the `PX` argument, so the SET inside the batch is refused and no value is ever written; store still resolves with the payload and the id joins the type's set, so fetch answers undefined | `{inMemTTL: true, ttl: 10}`: any `store` | use Redis expiry with `ttl` only when the in-memory TTL is off | medium, not executed | RedisKeys.RttlAsWritten, RedisCache.InMemTtlBreaksStore | RedisKeys.Rttl, RedisCache.OneExpiryMechanism |
