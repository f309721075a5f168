/** file.js: FileCache, which keeps one directory per type under its root
    and one file per entry, named by the id and holding the payload's
    encoding. All calls are the synchronous `fs` calls of the FileSystem
    module; a call that throws ends the operation with its error. */
module FileCache {
  import opened Wrappers
  import opened Json
  import opened Paths
  import opened FileSystem
  import Collections
  import Envelope

  // ------------------------------------------------------------- _mkDir

  /** The walk of `_mkDir` along the prefixes of c, from the root, each
      created unless it exists. A refused mkdir ends the walk. */
  function MkPrefixes(fs: Fs, c: Path): (Result<(), string>, Fs)
    decreases |c|
  {
    if c == [] then (Ok(()), fs)
    else
      var (r, fs1) := MkPrefixes(fs, c[..|c| - 1]);
      if r.Err? then (r, fs1)
      else if Exists(fs1, c) then (Ok(()), fs1)
      else
        match MkDir(fs1, c)
        case Err(e) => (Err(e), fs1)
        case Ok(fs2) => (Ok(()), fs2)
  }

  /** The walk leaves files alone and only ever adds prefixes of c as
      directories. */
  lemma {:induction false} MkPrefixesFrame(fs: Fs, c: Path)
    ensures var fs' := MkPrefixes(fs, c).1;
      && fs'.files == fs.files
      && fs.dirs <= fs'.dirs
      && (forall q | q in fs'.dirs && q !in fs.dirs :: 0 < |q| <= |c| && q == c[..|q|])
    decreases |c|
  {
    if c != [] {
      var c' := c[..|c| - 1];
      MkPrefixesFrame(fs, c');
      forall k | 0 <= k <= |c'| ensures c'[..k] == c[..k] {}
      assert c[..|c|] == c;
    }
  }

  /** A completed walk leaves every prefix of c in place. */
  lemma {:induction false} MkPrefixesOk(fs: Fs, c: Path)
    requires MkPrefixes(fs, c).0.Ok?
    ensures forall k | 0 <= k <= |c| :: Exists(MkPrefixes(fs, c).1, c[..k])
    decreases |c|
  {
    if c != [] {
      var c' := c[..|c| - 1];
      MkPrefixesOk(fs, c');
      forall k | 0 <= k <= |c| ensures Exists(MkPrefixes(fs, c).1, c[..k]) {
        if k < |c| {
          assert c'[..k] == c[..k];
        } else {
          assert c[..k] == c;
        }
      }
    }
  }

  /** One more component: the walk to c + [x] is the walk to c, then one
      existence check and mkdir. */
  lemma MkPrefixesSnoc(fs: Fs, c: Path, x: string)
    ensures MkPrefixes(fs, c + [x]) ==
      var (r, fs1) := MkPrefixes(fs, c);
      if r.Err? then (r, fs1)
      else if Exists(fs1, c + [x]) then (Ok(()), fs1)
      else
        match MkDir(fs1, c + [x])
        case Err(e) => (Err(e), fs1)
        case Ok(fs2) => (Ok(()), fs2)
  {
    assert (c + [x])[..|c|] == c;
  }

  /** A refused walk stays refused however far the path goes on. */
  lemma {:induction false} MkPrefixesStops(fs: Fs, c: Path, d: Path)
    requires MkPrefixes(fs, c).0.Err?
    ensures MkPrefixes(fs, c + d) == MkPrefixes(fs, c)
    decreases |d|
  {
    if d == [] {
      assert c + d == c;
    } else {
      var d' := d[..|d| - 1];
      MkPrefixesStops(fs, c, d');
      assert c + d == (c + d') + [d[|d| - 1]];
      MkPrefixesSnoc(fs, c + d', d[|d| - 1]);
    }
  }

  /** Once every prefix exists the walk changes nothing: calling `_mkDir`
      again creates nothing new. */
  lemma {:induction false} MkPrefixesExisting(fs: Fs, c: Path)
    requires forall k | 0 <= k <= |c| :: Exists(fs, c[..k])
    ensures MkPrefixes(fs, c) == (Ok(()), fs)
    decreases |c|
  {
    if c != [] {
      var c' := c[..|c| - 1];
      forall k | 0 <= k <= |c'| ensures Exists(fs, c'[..k]) {
        assert c'[..k] == c[..k];
      }
      MkPrefixesExisting(fs, c');
      assert c[..|c|] == c;
    }
  }

  lemma MkPrefixesTwice(fs: Fs, c: Path)
    requires MkPrefixes(fs, c).0.Ok?
    ensures MkPrefixes(MkPrefixes(fs, c).1, c) == MkPrefixes(fs, c)
  {
    MkPrefixesOk(fs, c);
    MkPrefixesExisting(MkPrefixes(fs, c).1, c);
  }

  /** In a well formed file system every proper prefix of an entry is a
      directory. */
  lemma {:induction false} Ancestors(fs: Fs, p: Path, k: nat)
    requires Wf(fs) && (p in fs.dirs || p in fs.files) && k < |p|
    ensures IsDir(fs, p[..k])
    decreases |p|
  {
    assert Placed(fs, p);
    if k < |p| - 1 {
      var q := Parent(p);
      if q != [] {
        Ancestors(fs, q, k);
        assert q[..k] == p[..k];
      }
    }
  }

  /** A file inside a well formed file system blocks the walk: the walk is
      refused exactly when a proper prefix of the path is a file, and then
      it has changed nothing. */
  lemma {:induction false} MkPrefixesRefused(fs: Fs, c: Path)
    requires Wf(fs) && forall k | 0 <= k < |c| :: IsName(c[k])
    ensures var (r, fs') := MkPrefixes(fs, c);
      && Wf(fs')
      && (r.Err? <==> exists k | 0 < k < |c| :: c[..k] in fs.files)
      && (r.Err? ==> fs' == fs)
      && (r.Ok? ==> forall k | 0 <= k < |c| :: IsDir(fs', c[..k]))
    decreases |c|
  {
    MkPrefixesRefusedStep(fs, c);
    var (r, fs') := MkPrefixes(fs, c);
    if r.Ok? {
      MkPrefixesOk(fs, c);
      forall k | 0 <= k < |c| ensures IsDir(fs', c[..k]) {
        assert c[..|c|] == c;
        Ancestors(fs', c, k);
      }
    }
  }

  lemma {:induction false} MkPrefixesRefusedStep(fs: Fs, c: Path)
    requires Wf(fs) && forall k | 0 <= k < |c| :: IsName(c[k])
    ensures var (r, fs') := MkPrefixes(fs, c);
      && Wf(fs')
      && (r.Err? <==> FileOnPath(fs, c))
      && (r.Err? ==> fs' == fs)
    decreases |c|
  {
    if c != [] {
      MkPrefixesRefusedStep(fs, c[..|c| - 1]);
      RefusedLast(fs, c);
    }
  }

  /** Some proper prefix of c is a file. */
  predicate FileOnPath(fs: Fs, c: Path)
  {
    exists k | 0 < k < |c| :: c[..k] in fs.files
  }

  /** The files among the proper prefixes of c: those of its parent, and the
      parent itself. */
  lemma PrefixFiles(fs: Fs, c: Path)
    requires c != []
    ensures FileOnPath(fs, c) <==> FileOnPath(fs, c[..|c| - 1]) || (|c| > 1 && c[..|c| - 1] in fs.files)
  {
    var c' := c[..|c| - 1];
    forall k | 0 <= k <= |c'| ensures c'[..k] == c[..k] {}
  }

  /** The last step of a walk over a well formed file system, given what the
      walk to the parent did. */
  lemma RefusedLast(fs: Fs, c: Path)
    requires Wf(fs) && c != [] && forall k | 0 <= k < |c| :: IsName(c[k])
    requires var (r, fs') := MkPrefixes(fs, c[..|c| - 1]);
      && Wf(fs')
      && (r.Err? <==> FileOnPath(fs, c[..|c| - 1]))
      && (r.Err? ==> fs' == fs)
    ensures var (r, fs') := MkPrefixes(fs, c);
      && Wf(fs')
      && (r.Err? <==> FileOnPath(fs, c))
      && (r.Err? ==> fs' == fs)
  {
    var c' := c[..|c| - 1];
    PrefixFiles(fs, c);
    if MkPrefixes(fs, c').0.Ok? {
      MkPrefixesFrame(fs, c');
      RefusedLastOk(fs, c);
    }
  }

  lemma RefusedLastOk(fs: Fs, c: Path)
    requires Wf(fs) && c != [] && IsName(c[|c| - 1])
    requires MkPrefixes(fs, c[..|c| - 1]).0.Ok? && Wf(MkPrefixes(fs, c[..|c| - 1]).1)
    requires MkPrefixes(fs, c[..|c| - 1]).1.files == fs.files
    ensures var fs1 := MkPrefixes(fs, c[..|c| - 1]).1;
      && MkPrefixes(fs, c) == (if Exists(fs1, c) then (Ok(()), fs1) else match MkDir(fs1, c)
           case Err(e) => (Err(e), fs1)
           case Ok(fs2) => (Ok(()), fs2))
      && (Exists(fs1, c) || MkDir(fs1, c).Ok? ==> Wf(MkPrefixes(fs, c).1))
      && (MkDir(fs1, c).Err? && !Exists(fs1, c) <==> |c| > 1 && c[..|c| - 1] in fs.files)
      && (MkDir(fs1, c).Err? && !Exists(fs1, c) ==> fs1 == fs)
  {
    var c' := c[..|c| - 1];
    var fs1 := MkPrefixes(fs, c').1;
    MkPrefixesOk(fs, c');
    assert c'[..|c'|] == c';
    if Exists(fs1, c) {
    } else if MkDir(fs1, c).Ok? {
      MkDirWf(fs1, c);
    } else if c' != [] {
      assert c' in fs.files;
      forall k | 0 <= k <= |c'| ensures Exists(fs, c'[..k]) {
        if k < |c'| {
          Ancestors(fs, c', k);
        } else {
          assert c'[..k] == c';
        }
      }
      MkPrefixesExisting(fs, c');
    }
  }

  /** `_mkDir(dir)`: resolves dir against the working directory, then walks
      `'/' + entry` for every entry of its split, creating what does not
      exist; it returns the resolved path. */
  method MakeDirs(fs0: Fs, cwd: string, dir: string) returns (r: Result<string, string>, fs: Fs)
    ensures MkPrefixes(fs0, Comps(Resolve(cwd, dir))) == (if r.Ok? then Ok(()) else Err(r.error), fs)
    ensures r.Ok? ==> r.value == Resolve(cwd, dir)
  {
    var resolved := if IsAbsolute(dir) then dir else PathJoin(cwd, dir);
    var entries := Split(resolved);
    SplitParts(resolved);
    var full := "";
    fs := fs0;
    for j := 0 to |entries|
      invariant Split(full) == [""] + entries[..j]
      invariant MkPrefixes(fs0, NonEmpty(entries[..j])) == (Ok(()), fs)
    {
      var e := entries[j];
      WalkStep(full, entries, j);
      if e == "" {
        var c := NonEmpty(entries[..j]);
        MkPrefixesOk(fs0, c);
        assert c[..|c|] == c;
      } else {
        MkPrefixesSnoc(fs0, NonEmpty(entries[..j]), e);
      }
      full := full + "/" + e;
      var here := Comps(full);
      if !Exists(fs, here) {
        var made := MkDir(fs, here);
        if made.Err? {
          WalkEnd(fs0, entries, j);
          return Err(made.error), fs;
        }
        fs := made.value;
      }
    }
    assert entries[..|entries|] == entries;
    r := Ok(resolved);
  }

  /** One entry of the walk: appending `'/' + entry` extends the resolved
      path by that entry when it is not empty, and leaves it as it was when
      the entry is empty. */
  lemma WalkStep(full: string, entries: seq<string>, j: nat)
    requires j < |entries| && '/' !in entries[j]
    requires Split(full) == [""] + entries[..j]
    ensures Split(full + "/" + entries[j]) == [""] + entries[..j + 1]
    ensures Comps(full + "/" + entries[j]) == NonEmpty(entries[..j + 1])
    ensures NonEmpty(entries[..j + 1]) ==
      if entries[j] == "" then NonEmpty(entries[..j]) else NonEmpty(entries[..j]) + [entries[j]]
  {
    WalkSplit(full, entries, j);
    WalkNonEmpty(entries, j);
  }

  lemma WalkSplit(full: string, entries: seq<string>, j: nat)
    requires j < |entries| && '/' !in entries[j]
    requires Split(full) == [""] + entries[..j]
    ensures Split(full + "/" + entries[j]) == [""] + entries[..j + 1]
  {
    var e := entries[j];
    SplitSnoc(full, e);
    SplitName(e);
    assert entries[..j + 1] == entries[..j] + [e];
    assert ([""] + entries[..j]) + [e] == [""] + (entries[..j] + [e]);
  }

  lemma WalkNonEmpty(entries: seq<string>, j: nat)
    requires j < |entries|
    ensures NonEmpty([""] + entries[..j + 1]) == NonEmpty(entries[..j + 1])
    ensures NonEmpty(entries[..j + 1]) ==
      if entries[j] == "" then NonEmpty(entries[..j]) else NonEmpty(entries[..j]) + [entries[j]]
  {
    assert entries[..j + 1] == entries[..j] + [entries[j]];
    NonEmptyStep(entries[..j], entries[j]);
    NonEmptyConcat([""], entries[..j + 1]);
    assert NonEmpty([""]) == [];
  }

  /** A walk refused at entry j is refused for the whole path. */
  lemma WalkEnd(fs0: Fs, entries: seq<string>, j: nat)
    requires j < |entries| && MkPrefixes(fs0, NonEmpty(entries[..j + 1])).0.Err?
    ensures MkPrefixes(fs0, NonEmpty(entries)) == MkPrefixes(fs0, NonEmpty(entries[..j + 1]))
  {
    assert entries == entries[..j + 1] + entries[j + 1..];
    NonEmptyConcat(entries[..j + 1], entries[j + 1..]);
    MkPrefixesStops(fs0, NonEmpty(entries[..j + 1]), NonEmpty(entries[j + 1..]));
  }

  // -------------------------------------------------------------- hooks

  /** `path.join(this._path, type)`: the directory of a type. */
  function TypeDir(root: string, t: string): Path
  {
    Comps(PathJoin(root, t))
  }

  /** `path.join(this._path, type, id)`: the file of an entry. */
  function EntryFile(root: string, t: string, i: string): Path
  {
    Comps(PathJoin(PathJoin(root, t), i))
  }

  /** With proper names, a type's directory sits in the root and an entry's
      file in its type's directory. */
  lemma Layout(root: string, t: string, i: string)
    requires IsName(t) && IsName(i)
    ensures TypeDir(root, t) == Comps(root) + [t]
    ensures EntryFile(root, t, i) == TypeDir(root, t) + [i]
  {
    JoinComps(root, t);
    JoinComps(PathJoin(root, t), i);
    NameComps(t);
    NameComps(i);
  }

  /** `_store`: creates the type's directory when it does not exist, then
      writes the payload's encoding to the entry's file. A directory made
      before a refused write stays. */
  function StoreOp(root: string, fs: Fs, t: string, i: string, p: Json): (Result<Json, string>, Fs)
  {
    var d := TypeDir(root, t);
    if !Exists(fs, d) && MkDir(fs, d).Err? then (Err(MkDir(fs, d).error), fs)
    else
      var fs1 := if Exists(fs, d) then fs else MkDir(fs, d).value;
      match WriteFile(fs1, EntryFile(root, t, i), Encode(p))
      case Err(e) => (Err(e), fs1)
      case Ok(fs2) => (Ok(p), fs2)
  }

  /** `_fetch`: `false` when the entry's file does not exist, otherwise its
      contents parsed. It changes nothing. */
  function FetchOp(root: string, fs: Fs, t: string, i: string): Result<Json, string>
  {
    var f := EntryFile(root, t, i);
    if !Exists(fs, f) then Ok(JBool(false))
    else
      match ReadFile(fs, f)
      case Err(e) => Err(e)
      case Ok(text) => Parse(text)
  }

  /** One file of a listed directory, read and parsed. */
  function EntryValue(root: string, fs: Fs, t: string, n: string): Result<Json, string>
  {
    match ReadFile(fs, EntryFile(root, t, n))
    case Err(e) => Err(e)
    case Ok(text) => Parse(text)
  }

  /** The loop of `_map` over the names `readdirSync` gave, in that order:
      the first file that cannot be read or parsed ends it. */
  function MapOver(root: string, fs: Fs, t: string, names: seq<string>): Result<map<string, Json>, string>
  {
    if names == [] then Ok(map[])
    else
      match MapOver(root, fs, t, names[..|names| - 1])
      case Err(e) => Err(e)
      case Ok(m) =>
        match EntryValue(root, fs, t, names[|names| - 1])
        case Err(e) => Err(e)
        case Ok(v) => Ok(m[names[|names| - 1] := v])
  }

  /** `_map`: lists the type's directory, then collects every file. `names`
      is the order of the listing. */
  function MapOp(root: string, fs: Fs, t: string, names: seq<string>): Result<map<string, Json>, string>
  {
    match ReadDir(fs, TypeDir(root, t))
    case Err(e) => Err(e)
    case Ok(_) => MapOver(root, fs, t, names)
  }

  /** The loop of `_list`: the parsed files in listing order. */
  function ListOver(root: string, fs: Fs, t: string, names: seq<string>): Result<seq<Json>, string>
  {
    if names == [] then Ok([])
    else
      match ListOver(root, fs, t, names[..|names| - 1])
      case Err(e) => Err(e)
      case Ok(vs) =>
        match EntryValue(root, fs, t, names[|names| - 1])
        case Err(e) => Err(e)
        case Ok(v) => Ok(vs + [v])
  }

  /** `_list`. */
  function ListOp(root: string, fs: Fs, t: string, names: seq<string>): Result<seq<Json>, string>
  {
    match ReadDir(fs, TypeDir(root, t))
    case Err(e) => Err(e)
    case Ok(_) => ListOver(root, fs, t, names)
  }

  /** `_remove`: fetches the entry, then unlinks its file when it exists;
      it answers what the fetch gave. A fetch that throws ends it before
      the unlink. */
  function RemoveOp(root: string, fs: Fs, t: string, i: string): (Result<Json, string>, Fs)
  {
    var f := EntryFile(root, t, i);
    match FetchOp(root, fs, t, i)
    case Err(e) => (Err(e), fs)
    case Ok(v) =>
      if !Exists(fs, f) then (Ok(v), fs)
      else (Ok(v), Unlink(fs, f).value)
  }

  /** The loop of `_clear`: removes the listed names one after the other. */
  function ClearOver(root: string, fs: Fs, t: string, names: seq<string>): (Result<(), string>, Fs)
  {
    if names == [] then (Ok(()), fs)
    else
      var (r, fs1) := ClearOver(root, fs, t, names[..|names| - 1]);
      if r.Err? then (r, fs1)
      else
        match RemoveOp(root, fs1, t, names[|names| - 1])
        case (Err(e), fs2) => (Err(e), fs2)
        case (Ok(_), fs2) => (Ok(()), fs2)
  }

  /** `_clear`: lists the type's directory, removes every listed entry, then
      removes the directory when it still exists. */
  function ClearOp(root: string, fs: Fs, t: string, names: seq<string>): (Result<(), string>, Fs)
  {
    var d := TypeDir(root, t);
    match ReadDir(fs, d)
    case Err(e) => (Err(e), fs)
    case Ok(_) =>
      var (r, fs1) := ClearOver(root, fs, t, names);
      if r.Err? then (r, fs1)
      else if !Exists(fs1, d) then (Ok(()), fs1)
      else
        match RmDir(fs1, d)
        case Err(e) => (Err(e), fs1)
        case Ok(fs2) => (Ok(()), fs2)
  }

  // ------------------------------------------------------------ store

  /** What `_store` wrote, `_fetch` reads back. */
  lemma StoreFetch(root: string, fs: Fs, t: string, i: string, p: Json)
    requires StoreOp(root, fs, t, i, p).0.Ok?
    ensures StoreOp(root, fs, t, i, p).0 == Ok(p)
    ensures FetchOp(root, StoreOp(root, fs, t, i, p).1, t, i) == Ok(p)
  {
    ParseEncode(p);
  }

  /** In a well formed file system whose root directory exists, `_store`
      succeeds unless the type's directory is a file (ENOTDIR) or the
      entry's file is a directory (EISDIR), and it keeps the file system
      well formed. */
  lemma StoreRefusal(root: string, fs: Fs, t: string, i: string, p: Json)
    requires Wf(fs) && IsDir(fs, Comps(root)) && IsName(t) && IsName(i)
    ensures var (r, fs') := StoreOp(root, fs, t, i, p);
      && (r.Ok? <==> TypeDir(root, t) !in fs.files && EntryFile(root, t, i) !in fs.dirs)
      && (r.Err? ==> r.error == (if TypeDir(root, t) in fs.files then ENOTDIR else EISDIR))
      && (r.Err? ==> fs' == fs)
      && Wf(fs')
  {
    Layout(root, t, i);
    CompsNames(root);
    var d, f := TypeDir(root, t), EntryFile(root, t, i);
    assert Parent(f) == d && Parent(d) == Comps(root);
    assert d[|d| - 1] == t && f[|f| - 1] == i;
    if f in fs.dirs {
      assert Placed(fs, f);
    }
    if d in fs.files {
      assert Placed(fs, d);
      assert f[..|d|] == d;
    } else if !Exists(fs, d) {
      MkDirWf(fs, d);
      var fs1 := MkDir(fs, d).value;
      if WriteFile(fs1, f, Encode(p)).Ok? {
        WriteFileWf(fs1, f, Encode(p));
      }
    } else if WriteFile(fs, f, Encode(p)).Ok? {
      WriteFileWf(fs, f, Encode(p));
    }
  }

  /** Storing the same entry twice leaves what storing it once left. */
  lemma StoreTwice(root: string, fs: Fs, t: string, i: string, p: Json)
    requires StoreOp(root, fs, t, i, p).0.Ok?
    ensures StoreOp(root, StoreOp(root, fs, t, i, p).1, t, i, p) == StoreOp(root, fs, t, i, p)
  {
    var fs2 := StoreOp(root, fs, t, i, p).1;
    var f := EntryFile(root, t, i);
    assert fs2.files[f := Encode(p)] == fs2.files;
  }

  /** With proper names, `_store` changes what no other entry reads. */
  lemma StoreKeepsOthers(root: string, fs: Fs, t: string, i: string, p: Json, t2: string, i2: string)
    requires StoreOp(root, fs, t, i, p).0.Ok?
    requires IsName(t) && IsName(i) && IsName(t2) && IsName(i2) && (t2, i2) != (t, i)
    ensures FetchOp(root, StoreOp(root, fs, t, i, p).1, t2, i2) == FetchOp(root, fs, t2, i2)
  {
    Layout(root, t, i);
    Layout(root, t2, i2);
    var fs' := StoreOp(root, fs, t, i, p).1;
    var f, f2 := EntryFile(root, t, i), EntryFile(root, t2, i2);
    var c := Comps(root);
    assert f[|c|] == t && f[|c| + 1] == i && f2[|c|] == t2 && f2[|c| + 1] == i2;
    assert |f| == |f2| == |c| + 2 && |TypeDir(root, t)| == |c| + 1;
    assert fs'.files == fs.files[f := Encode(p)];
    SameMissing(fs, fs', f2);
  }

  /** Error codes agree on two file systems whose files agree along the
      proper prefixes of p. */
  lemma SameMissing(fs: Fs, fs': Fs, p: Path)
    requires forall k | 0 < k < |p| :: (p[..k] in fs.files <==> p[..k] in fs'.files)
    ensures Missing(fs, p) == Missing(fs', p)
  {
  }

  // ----------------------------------------------------------- remove

  /** `_remove` answers exactly what `_fetch` would have; when that
      succeeds the entry is gone afterwards, and when it throws nothing
      changes. */
  lemma RemoveAnswersFetch(root: string, fs: Fs, t: string, i: string)
    ensures RemoveOp(root, fs, t, i).0 == FetchOp(root, fs, t, i)
    ensures FetchOp(root, fs, t, i).Err? ==> RemoveOp(root, fs, t, i).1 == fs
    ensures FetchOp(root, fs, t, i).Ok? ==> !Exists(RemoveOp(root, fs, t, i).1, EntryFile(root, t, i))
    ensures FetchOp(root, fs, t, i).Ok? ==> FetchOp(root, RemoveOp(root, fs, t, i).1, t, i) == Ok(JBool(false))
  {
  }

  /** A stored entry is removed with its payload as the answer. */
  lemma StoreRemove(root: string, fs: Fs, t: string, i: string, p: Json)
    requires StoreOp(root, fs, t, i, p).0.Ok?
    ensures var fs' := StoreOp(root, fs, t, i, p).1;
      && RemoveOp(root, fs', t, i).0 == Ok(p)
      && FetchOp(root, RemoveOp(root, fs', t, i).1, t, i) == Ok(JBool(false))
  {
    StoreFetch(root, fs, t, i, p);
    RemoveAnswersFetch(root, StoreOp(root, fs, t, i, p).1, t, i);
  }

  /** An entry whose file does not parse cannot be removed: the fetch
      throws before the unlink. */
  lemma RemoveCorrupt(root: string, fs: Fs, t: string, i: string)
    requires IsFile(fs, EntryFile(root, t, i)) && !IsDir(fs, EntryFile(root, t, i))
    requires Parse(fs.files[EntryFile(root, t, i)]).Err?
    ensures RemoveOp(root, fs, t, i) == (Err(SyntaxErr), fs)
    ensures IsFile(RemoveOp(root, fs, t, i).1, EntryFile(root, t, i))
  {
  }

  // -------------------------------------------------------- map, list

  /** The loop of `_map` succeeds exactly when every listed file reads and
      parses; its entries are then those files, keyed by name, whatever the
      order. A failure is the failure of one of the files. */
  lemma {:induction false} MapOverEntries(root: string, fs: Fs, t: string, names: seq<string>)
    ensures var r := MapOver(root, fs, t, names);
      && (r.Ok? <==> forall n | n in names :: EntryValue(root, fs, t, n).Ok?)
      && (r.Ok? ==> r.value.Keys == set n | n in names)
      && (r.Ok? ==> forall n | n in names :: r.value[n] == EntryValue(root, fs, t, n).value)
      && (r.Err? ==> exists n | n in names :: EntryValue(root, fs, t, n) == Err(r.error))
    decreases |names|
  {
    if names != [] {
      var init, x := names[..|names| - 1], names[|names| - 1];
      assert names == init + [x];
      MapOverEntries(root, fs, t, init);
    }
  }

  /** Two listings of the same names both succeed, with the same map, or both
      fail. */
  lemma MapOrderFree(root: string, fs: Fs, t: string, names: seq<string>, names2: seq<string>)
    requires forall n :: n in names <==> n in names2
    ensures MapOver(root, fs, t, names).Ok? <==> MapOver(root, fs, t, names2).Ok?
    ensures MapOver(root, fs, t, names).Ok? ==> MapOver(root, fs, t, names) == MapOver(root, fs, t, names2)
  {
    MapOverOk(root, fs, t, names);
    MapOverOk(root, fs, t, names2);
    if MapOver(root, fs, t, names).Ok? {
      Collections.SameEntries(MapOver(root, fs, t, names).value, MapOver(root, fs, t, names2).value);
    }
  }

  /** A listing that fails, fails with the error of a file any other listing
      of the same names also holds. */
  lemma MapOrderSameCause(root: string, fs: Fs, t: string, names: seq<string>, names2: seq<string>)
    requires forall n :: n in names <==> n in names2
    requires MapOver(root, fs, t, names2).Err?
    ensures exists n | n in names :: EntryValue(root, fs, t, n) == Err(MapOver(root, fs, t, names2).error)
  {
    MapOverEntries(root, fs, t, names2);
  }

  /** What a successful `_map` loop holds, as a map over the names. */
  lemma MapOverOk(root: string, fs: Fs, t: string, names: seq<string>)
    ensures var r := MapOver(root, fs, t, names);
      && (r.Ok? <==> forall n | n in names :: EntryValue(root, fs, t, n).Ok?)
      && (r.Ok? ==> forall n :: n in r.value <==> n in names)
      && (r.Ok? ==> forall n | n in r.value :: r.value[n] == EntryValue(root, fs, t, n).value)
  {
    MapOverEntries(root, fs, t, names);
  }

  /** Every entry of `_map` is what `_fetch` gives for its name. */
  lemma MapAgreesWithFetch(root: string, fs: Fs, t: string, names: seq<string>, n: string)
    requires MapOver(root, fs, t, names).Ok? && n in names
    ensures n in MapOver(root, fs, t, names).value
    ensures FetchOp(root, fs, t, n) == Ok(MapOver(root, fs, t, names).value[n])
  {
    MapOverEntries(root, fs, t, names);
  }

  /** A stored entry's directory lists it. */
  lemma StoreListed(root: string, fs: Fs, t: string, i: string, p: Json)
    requires StoreOp(root, fs, t, i, p).0.Ok? && IsName(t) && IsName(i)
    ensures i in Children(StoreOp(root, fs, t, i, p).1, TypeDir(root, t))
  {
    Layout(root, t, i);
    var d, f := TypeDir(root, t), EntryFile(root, t, i);
    assert Parent(f) == d;
  }

  /** After `_store`, a `_map` of the type that succeeds holds the entry. */
  lemma MapAfterStore(root: string, fs: Fs, t: string, i: string, p: Json, names: seq<string>)
    requires StoreOp(root, fs, t, i, p).0.Ok? && IsName(t) && IsName(i)
    requires var fs' := StoreOp(root, fs, t, i, p).1;
      Collections.Enumerates(names, Children(fs', TypeDir(root, t))) && MapOp(root, fs', t, names).Ok?
    ensures var m := MapOp(root, StoreOp(root, fs, t, i, p).1, t, names).value; i in m && m[i] == p
  {
    StoreListed(root, fs, t, i, p);
    StoreFetch(root, fs, t, i, p);
    var fs' := StoreOp(root, fs, t, i, p).1;
    MapAgreesWithFetch(root, fs', t, names, i);
    MapOverEntries(root, fs', t, names);
  }

  /** `_list` fails as `_map` does, and otherwise gives the values of the
      map in listing order. */
  lemma {:induction false} ListMatchesMap(root: string, fs: Fs, t: string, names: seq<string>)
    requires Collections.Distinct(names)
    ensures ListOver(root, fs, t, names).Err? <==> MapOver(root, fs, t, names).Err?
    ensures ListOver(root, fs, t, names).Err? ==> ListOver(root, fs, t, names).error == MapOver(root, fs, t, names).error
    ensures MapOver(root, fs, t, names).Ok? ==>
      (forall n | n in names :: n in MapOver(root, fs, t, names).value)
      && ListOver(root, fs, t, names).value == Collections.ValuesAt(MapOver(root, fs, t, names).value, names)
    decreases |names|
  {
    if names != [] {
      var init, x := names[..|names| - 1], names[|names| - 1];
      assert names == init + [x];
      ListMatchesMap(root, fs, t, init);
      var r := MapOver(root, fs, t, names);
      if r.Ok? {
        var m := MapOver(root, fs, t, init).value;
        var v := EntryValue(root, fs, t, x).value;
        assert x !in init;
        Collections.ValuesAtFresh(m, init, x, v);
        Collections.ValuesAtSnoc(m[x := v], init, x);
      }
    }
  }

  /** A type that was never stored has no directory to list: `_map`,
      `_list` and `_clear` all throw. */
  lemma UnknownType(root: string, fs: Fs, t: string, names: seq<string>)
    requires !Exists(fs, TypeDir(root, t))
    ensures MapOp(root, fs, t, names) == Err(Missing(fs, TypeDir(root, t)))
    ensures ListOp(root, fs, t, names) == Err(Missing(fs, TypeDir(root, t)))
    ensures ClearOp(root, fs, t, names) == (Err(Missing(fs, TypeDir(root, t))), fs)
    ensures Missing(fs, TypeDir(root, t)) == ENOENT || Missing(fs, TypeDir(root, t)) == ENOTDIR
  {
  }

  // ------------------------------------------------------------ clear

  /** With a proper name, an entry's file sits in its type's directory
      whatever the type. */
  lemma EntryInDir(root: string, t: string, n: string)
    requires IsName(n)
    ensures EntryFile(root, t, n) == TypeDir(root, t) + [n]
  {
    JoinComps(PathJoin(root, t), n);
    NameComps(n);
  }

  /** fs' is fs with some files of the named entries deleted. */
  ghost predicate OnlyRemoves(root: string, fs: Fs, fs': Fs, t: string, names: seq<string>)
  {
    && fs'.dirs == fs.dirs
    && fs'.files.Keys <= fs.files.Keys
    && (forall f | f in fs'.files :: fs'.files[f] == fs.files[f])
    && (forall f | f in fs.files && f !in fs'.files :: exists n | n in names :: f == EntryFile(root, t, n))
  }

  /** The removes of `_clear` create no directory and delete only files of
      the listed entries. */
  lemma {:induction false} ClearOverFrame(root: string, fs: Fs, t: string, names: seq<string>)
    ensures OnlyRemoves(root, fs, ClearOver(root, fs, t, names).1, t, names)
    decreases |names|
  {
    if names != [] {
      var init, x := names[..|names| - 1], names[|names| - 1];
      assert names == init + [x];
      ClearOverFrame(root, fs, t, init);
    }
  }

  /** When the removes all succeed, none of the listed entries' files is
      left. */
  lemma {:induction false} ClearOverGone(root: string, fs: Fs, t: string, names: seq<string>)
    requires ClearOver(root, fs, t, names).0.Ok?
    ensures forall n | n in names :: !Exists(ClearOver(root, fs, t, names).1, EntryFile(root, t, n))
    decreases |names|
  {
    if names != [] {
      var init, x := names[..|names| - 1], names[|names| - 1];
      assert names == init + [x];
      ClearOverGone(root, fs, t, init);
      RemoveAnswersFetch(root, ClearOver(root, fs, t, init).1, t, x);
    }
  }

  /** A file that no remove touched still reads as before. */
  lemma Untouched(root: string, fs: Fs, fs1: Fs, t: string, init: seq<string>, x: string)
    requires OnlyRemoves(root, fs, fs1, t, init)
    requires IsName(x) && x !in init && forall n | n in init :: IsName(n)
    ensures EntryValue(root, fs1, t, x) == EntryValue(root, fs, t, x) || EntryValue(root, fs, t, x).Err?
  {
    EntryInDir(root, t, x);
    forall n | n in init ensures EntryFile(root, t, n) != EntryFile(root, t, x) {
      EntryInDir(root, t, n);
      assert n != x;
      assert EntryFile(root, t, n)[|TypeDir(root, t)|] == n;
    }
  }

  /** The removes all succeed when every listed file reads and parses. */
  lemma {:induction false} ClearOverOk(root: string, fs: Fs, t: string, names: seq<string>)
    requires Collections.Distinct(names)
    requires forall n | n in names :: IsName(n) && EntryValue(root, fs, t, n).Ok?
    ensures ClearOver(root, fs, t, names).0.Ok?
    decreases |names|
  {
    if names != [] {
      var init, x := names[..|names| - 1], names[|names| - 1];
      assert names == init + [x];
      assert Collections.Distinct(init);
      assert x !in init;
      ClearOverOk(root, fs, t, init);
      ClearOverFrame(root, fs, t, init);
      var fs1 := ClearOver(root, fs, t, init).1;
      Untouched(root, fs, fs1, t, init, x);
      assert EntryValue(root, fs1, t, x).Ok?;
    }
  }

  /** After a `_clear` that succeeds, the type's directory is gone and no
      entry of the type can be fetched. */
  lemma ClearEmpties(root: string, fs: Fs, t: string, names: seq<string>, i: string)
    requires ClearOp(root, fs, t, names).0.Ok? && IsName(i)
    ensures !Exists(ClearOp(root, fs, t, names).1, TypeDir(root, t))
    ensures FetchOp(root, ClearOp(root, fs, t, names).1, t, i) == Ok(JBool(false))
  {
    ClearOverFrame(root, fs, t, names);
    EntryInDir(root, t, i);
    var d := TypeDir(root, t);
    var fs1 := ClearOver(root, fs, t, names).1;
    assert i !in Children(fs1, d);
  }

  /** In a well formed file system, `_clear` of a listed type succeeds when
      every entry in its directory is a file that parses. */
  lemma ClearSucceeds(root: string, fs: Fs, t: string, names: seq<string>)
    requires Wf(fs) && ReadDir(fs, TypeDir(root, t)).Ok? && TypeDir(root, t) != []
    requires Collections.Enumerates(names, Children(fs, TypeDir(root, t)))
    requires forall n | n in names :: EntryValue(root, fs, t, n).Ok?
    ensures ClearOp(root, fs, t, names).0.Ok?
  {
    var d := TypeDir(root, t);
    forall n | n in names ensures IsName(n) {
      assert d + [n] in fs.dirs || d + [n] in fs.files;
      assert Placed(fs, d + [n]);
    }
    ClearOverOk(root, fs, t, names);
    ClearOverFrame(root, fs, t, names);
    ClearOverGone(root, fs, t, names);
    var fs1 := ClearOver(root, fs, t, names).1;
    forall n ensures d + [n] !in fs1.dirs && d + [n] !in fs1.files {
      if n in names {
        EntryInDir(root, t, n);
        assert ReadFile(fs, d + [n]).Ok?;
      } else {
        assert n !in Children(fs, d);
      }
    }
    assert Children(fs1, d) == {};
  }

  /** An entry's file begins with the root and the type. */
  lemma UnderType(root: string, t: string, n: string)
    requires IsName(t)
    ensures |EntryFile(root, t, n)| > |Comps(root)| && EntryFile(root, t, n)[|Comps(root)|] == t
  {
    JoinComps(root, t);
    NameComps(t);
    JoinComps(PathJoin(root, t), n);
  }

  /** `_clear` removes no directory but the type's own, and only files of
      the listed entries. */
  lemma ClearOpFrame(root: string, fs: Fs, t: string, names: seq<string>)
    ensures var fs' := ClearOp(root, fs, t, names).1;
      && fs'.dirs <= fs.dirs && fs.dirs - fs'.dirs <= {TypeDir(root, t)}
      && fs'.files.Keys <= fs.files.Keys
      && (forall f | f in fs'.files :: fs'.files[f] == fs.files[f])
      && (forall f | f in fs.files && f !in fs'.files :: exists n | n in names :: f == EntryFile(root, t, n))
  {
    ClearOverFrame(root, fs, t, names);
  }

  /** `_fetch` reads only the entry's file and whether the directories on
      its way are files. */
  lemma FetchReads(root: string, fs: Fs, fs': Fs, t: string, i: string)
    requires var f := EntryFile(root, t, i);
      && (f in fs.dirs <==> f in fs'.dirs)
      && (f in fs.files <==> f in fs'.files)
      && (f in fs.files ==> fs.files[f] == fs'.files[f])
      && forall k | 0 < k < |f| :: (f[..k] in fs.files <==> f[..k] in fs'.files)
    ensures FetchOp(root, fs', t, i) == FetchOp(root, fs, t, i)
  {
    SameMissing(fs, fs', EntryFile(root, t, i));
  }

  /** `_clear` of one type changes no entry of another. */
  lemma ClearKeepsOthers(root: string, fs: Fs, t: string, names: seq<string>, t2: string, i2: string)
    requires IsName(t) && IsName(t2) && IsName(i2) && t2 != t
    ensures FetchOp(root, ClearOp(root, fs, t, names).1, t2, i2) == FetchOp(root, fs, t2, i2)
  {
    ClearOpFrame(root, fs, t, names);
    Layout(root, t2, i2);
    Layout(root, t, i2);
    var c, f2 := Comps(root), EntryFile(root, t2, i2);
    var fs' := ClearOp(root, fs, t, names).1;
    assert f2[|c|] == t2 && |f2| == |c| + 2 && f2 != TypeDir(root, t);
    forall f | f in fs.files && f !in fs'.files ensures |f| > |c| && f[|c|] == t {
      var n :| n in names && f == EntryFile(root, t, n);
      UnderType(root, t, n);
    }
    forall k | 0 < k < |f2| ensures f2[..k] in fs.files <==> f2[..k] in fs'.files {
      if k == |c| + 1 {
        assert f2[..k][|c|] == t2;
      }
    }
    Collections.KeptMember(fs.dirs, fs'.dirs, TypeDir(root, t), f2);
    assert f2 in fs.files <==> f2 in fs'.files;
    assert f2 in fs.files ==> fs.files[f2] == fs'.files[f2];
    FetchReads(root, fs, fs', t2, i2);
  }

  /** A remove that throws ends `_clear`'s loop with the state it left. */
  lemma {:induction false} ClearOverStops(root: string, fs: Fs, t: string, names: seq<string>, j: nat)
    requires j <= |names| && ClearOver(root, fs, t, names[..j]).0.Err?
    ensures ClearOver(root, fs, t, names) == ClearOver(root, fs, t, names[..j])
    decreases |names| - j
  {
    if j < |names| {
      assert names[..j + 1][..j] == names[..j];
      ClearOverStops(root, fs, t, names, j + 1);
    } else {
      assert names[..j] == names;
    }
  }

  /** One more file in the loop of `_clear`; a failure is final. */
  lemma ClearStep(root: string, fs0: Fs, t: string, names: seq<string>, j: nat, fs: Fs)
    requires j < |names| && ClearOver(root, fs0, t, names[..j]) == (Ok(()), fs)
    ensures var (r, fs') := RemoveOp(root, fs, t, names[j]);
      ClearOver(root, fs0, t, names[..j + 1]) == (if r.Ok? then Ok(()) else Err(r.error), fs')
    ensures RemoveOp(root, fs, t, names[j]).0.Err? ==>
      ClearOver(root, fs0, t, names) == ClearOver(root, fs0, t, names[..j + 1])
  {
    assert names[..j + 1][..j] == names[..j];
    if RemoveOp(root, fs, t, names[j]).0.Err? {
      ClearOverStops(root, fs0, t, names, j + 1);
    }
  }

  /** One more file in the loops of `_map` and `_list`; a failure is
      final. */
  lemma MapStep(root: string, fs: Fs, t: string, names: seq<string>, j: nat, m: map<string, Json>)
    requires j < |names| && MapOver(root, fs, t, names[..j]) == Ok(m)
    ensures MapOver(root, fs, t, names[..j + 1]) ==
      match EntryValue(root, fs, t, names[j])
      case Err(e) => Err(e)
      case Ok(v) => Ok(m[names[j] := v])
    ensures EntryValue(root, fs, t, names[j]).Err? ==> MapOver(root, fs, t, names) == Err(EntryValue(root, fs, t, names[j]).error)
  {
    assert names[..j + 1][..j] == names[..j];
    if EntryValue(root, fs, t, names[j]).Err? {
      MapOverStops(root, fs, t, names, j + 1);
    }
  }

  lemma {:induction false} MapOverStops(root: string, fs: Fs, t: string, names: seq<string>, j: nat)
    requires j <= |names| && MapOver(root, fs, t, names[..j]).Err?
    ensures MapOver(root, fs, t, names) == MapOver(root, fs, t, names[..j])
    decreases |names| - j
  {
    if j < |names| {
      assert names[..j + 1][..j] == names[..j];
      MapOverStops(root, fs, t, names, j + 1);
    } else {
      assert names[..j] == names;
    }
  }

  lemma ListStep(root: string, fs: Fs, t: string, names: seq<string>, j: nat, vs: seq<Json>)
    requires j < |names| && ListOver(root, fs, t, names[..j]) == Ok(vs)
    ensures ListOver(root, fs, t, names[..j + 1]) ==
      match EntryValue(root, fs, t, names[j])
      case Err(e) => Err(e)
      case Ok(v) => Ok(vs + [v])
    ensures EntryValue(root, fs, t, names[j]).Err? ==> ListOver(root, fs, t, names) == Err(EntryValue(root, fs, t, names[j]).error)
  {
    assert names[..j + 1][..j] == names[..j];
    if EntryValue(root, fs, t, names[j]).Err? {
      ListOverStops(root, fs, t, names, j + 1);
    }
  }

  lemma {:induction false} ListOverStops(root: string, fs: Fs, t: string, names: seq<string>, j: nat)
    requires j <= |names| && ListOver(root, fs, t, names[..j]).Err?
    ensures ListOver(root, fs, t, names) == ListOver(root, fs, t, names[..j])
    decreases |names| - j
  {
    if j < |names| {
      assert names[..j + 1][..j] == names[..j];
      ListOverStops(root, fs, t, names, j + 1);
    } else {
      assert names[..j] == names;
    }
  }

  // ------------------------------------------------------------ class

  /** A file cache instance: its root directory and the disk it works on.
      The envelope of cache.js is the Envelope module; this class holds the
      hooks it calls. */
  class FileCache {
    const name: string
    /** The envelope's `_ttl`: the constructor always enables the TTL
        feature. */
    const envelopeTtl: int
    /** The `path` getter: the resolved root directory. */
    const path: string
    var disk: Fs

    constructor (name: string, ttl: int, path: string, disk: Fs)
      ensures this.name == name && envelopeTtl == Envelope.EffectiveTtl(true, ttl)
      ensures this.path == path && this.disk == disk
    {
      this.name := name;
      envelopeTtl := Envelope.EffectiveTtl(true, ttl);
      this.path := path;
      this.disk := disk;
    }

    /** `new FileCache(config, name)`: creates the root directory, `cache`
        under the working directory unless the configuration names one; the
        construction throws when that fails. */
    static method Open(name: string, ttl: int, configPath: string, cwd: string, disk: Fs)
      returns (r: Result<FileCache, string>)
      ensures r.Ok? ==> fresh(r.value) && r.value.name == name
      ensures r.Ok? ==> r.value.envelopeTtl == Envelope.EffectiveTtl(true, ttl)
      ensures r.Ok? ==> r.value.path == Resolve(cwd, Root(configPath))
      ensures MkPrefixes(disk, Comps(Resolve(cwd, Root(configPath)))) ==
        if r.Ok? then (Ok(()), r.value.disk) else (Err(r.error), MkPrefixes(disk, Comps(Resolve(cwd, Root(configPath)))).1)
    {
      var made, disk' := MakeDirs(disk, cwd, Root(configPath));
      if made.Err? {
        return Err(made.error);
      }
      var c := new FileCache(name, ttl, made.value, disk');
      r := Ok(c);
    }

    method Store(t: string, i: string, p: Json) returns (r: Result<Json, string>)
      modifies this
      ensures (r, disk) == StoreOp(path, old(disk), t, i, p)
      ensures Wf(old(disk)) && IsDir(old(disk), Comps(path)) && IsName(t) && IsName(i) ==> Wf(disk)
    {
      if Wf(disk) && IsDir(disk, Comps(path)) && IsName(t) && IsName(i) {
        StoreRefusal(path, disk, t, i, p);
      }
      var d := TypeDir(path, t);
      if !Exists(disk, d) {
        var made := MkDir(disk, d);
        if made.Err? {
          return Err(made.error);
        }
        disk := made.value;
      }
      var written := WriteFile(disk, EntryFile(path, t, i), Encode(p));
      if written.Err? {
        return Err(written.error);
      }
      disk := written.value;
      r := Ok(p);
    }

    method Fetch(t: string, i: string) returns (r: Result<Json, string>)
      ensures r == FetchOp(path, disk, t, i)
    {
      var f := EntryFile(path, t, i);
      if !Exists(disk, f) {
        return Ok(JBool(false));
      }
      var text := ReadFile(disk, f);
      if text.Err? {
        return Err(text.error);
      }
      r := Parse(text.value);
    }

    /** `_map`; `names` is the order in which the directory was listed. */
    method Map(t: string) returns (ghost names: seq<string>, r: Result<map<string, Json>, string>)
      ensures ReadDir(disk, TypeDir(path, t)).Ok? ==>
        Collections.Enumerates(names, ReadDir(disk, TypeDir(path, t)).value)
      ensures r == MapOp(path, disk, t, names)
    {
      var listed := ReadDir(disk, TypeDir(path, t));
      if listed.Err? {
        return [], Err(listed.error);
      }
      var files := Collections.Enumerate(listed.value);
      names := files;
      var m: map<string, Json> := map[];
      for j := 0 to |files|
        invariant MapOver(path, disk, t, files[..j]) == Ok(m)
      {
        MapStep(path, disk, t, files, j, m);
        var text := ReadFile(disk, EntryFile(path, t, files[j]));
        if text.Err? {
          return names, Err(text.error);
        }
        var payload := Parse(text.value);
        if payload.Err? {
          return names, Err(payload.error);
        }
        m := m[files[j] := payload.value];
      }
      assert files[..|files|] == files;
      r := Ok(m);
    }

    /** `_list`; `names` is the order in which the directory was listed. */
    method List(t: string) returns (ghost names: seq<string>, r: Result<seq<Json>, string>)
      ensures ReadDir(disk, TypeDir(path, t)).Ok? ==>
        Collections.Enumerates(names, ReadDir(disk, TypeDir(path, t)).value)
      ensures r == ListOp(path, disk, t, names)
    {
      var listed := ReadDir(disk, TypeDir(path, t));
      if listed.Err? {
        return [], Err(listed.error);
      }
      var files := Collections.Enumerate(listed.value);
      names := files;
      var response: seq<Json> := [];
      for j := 0 to |files|
        invariant ListOver(path, disk, t, files[..j]) == Ok(response)
      {
        ListStep(path, disk, t, files, j, response);
        var text := ReadFile(disk, EntryFile(path, t, files[j]));
        if text.Err? {
          return names, Err(text.error);
        }
        var payload := Parse(text.value);
        if payload.Err? {
          return names, Err(payload.error);
        }
        response := response + [payload.value];
      }
      assert files[..|files|] == files;
      r := Ok(response);
    }

    method Remove(t: string, i: string) returns (r: Result<Json, string>)
      modifies this
      ensures (r, disk) == RemoveOp(path, old(disk), t, i)
      ensures Wf(old(disk)) ==> Wf(disk)
    {
      var f := EntryFile(path, t, i);
      r := Fetch(t, i);
      if r.Err? {
        return;
      }
      if Exists(disk, f) {
        if Wf(disk) {
          UnlinkWf(disk, f);
        }
        disk := Unlink(disk, f).value;
      }
    }

    /** `_clear`; `names` is the order in which the directory was listed. */
    method Clear(t: string) returns (ghost names: seq<string>, r: Result<(), string>)
      modifies this
      ensures ReadDir(old(disk), TypeDir(path, t)).Ok? ==>
        Collections.Enumerates(names, ReadDir(old(disk), TypeDir(path, t)).value)
      ensures (r, disk) == ClearOp(path, old(disk), t, names)
    {
      var d := TypeDir(path, t);
      var listed := ReadDir(disk, d);
      if listed.Err? {
        return [], Err(listed.error);
      }
      var files := Collections.Enumerate(listed.value);
      names := files;
      for j := 0 to |files|
        invariant ClearOver(path, old(disk), t, files[..j]) == (Ok(()), disk)
      {
        ClearStep(path, old(disk), t, files, j, disk);
        var removed := Remove(t, files[j]);
        if removed.Err? {
          return names, Err(removed.error);
        }
      }
      assert files[..|files|] == files;
      if Exists(disk, d) {
        var emptied := RmDir(disk, d);
        if emptied.Err? {
          return names, Err(emptied.error);
        }
        disk := emptied.value;
      }
      r := Ok(());
    }
  }
}
