/** The synchronous `fs` calls file.js makes, over an abstract file system:
    a set of directories and a map from file paths to their contents. The
    root directory always exists and is in neither. A refused call reports
    Node's error code. */
module FileSystem {
  import opened Wrappers
  import opened Paths

  datatype Fs = Fs(dirs: set<Path>, files: map<Path, string>)

  const ENOENT := "ENOENT"
  const ENOTDIR := "ENOTDIR"
  const EEXIST := "EEXIST"
  const EISDIR := "EISDIR"
  const ENOTEMPTY := "ENOTEMPTY"
  const EBUSY := "EBUSY"

  predicate IsDir(fs: Fs, p: Path)
  {
    p == [] || p in fs.dirs
  }

  predicate IsFile(fs: Fs, p: Path)
  {
    p in fs.files
  }

  /** `fs.existsSync`. */
  predicate Exists(fs: Fs, p: Path)
  {
    IsDir(fs, p) || IsFile(fs, p)
  }

  function Parent(p: Path): Path
    requires p != []
  {
    p[..|p| - 1]
  }

  /** The code for a path that does not resolve: ENOTDIR when the walk
      meets a file on the way, ENOENT otherwise. */
  function Missing(fs: Fs, p: Path): (code: string)
    ensures code == ENOENT || code == ENOTDIR
  {
    if exists k | 0 < k < |p| :: p[..k] in fs.files then ENOTDIR else ENOENT
  }

  // ------------------------------------------------------------ invariant

  /** An entry has a proper name, sits in a directory and is not both a
      file and a directory. */
  predicate Placed(fs: Fs, p: Path)
  {
    p != [] && IsName(p[|p| - 1]) && IsDir(fs, Parent(p)) && !(p in fs.dirs && p in fs.files)
  }

  /** Every entry is placed: the shape every real file system has. */
  ghost predicate Wf(fs: Fs)
  {
    && (forall p | p in fs.dirs :: Placed(fs, p))
    && (forall p | p in fs.files :: Placed(fs, p))
  }

  /** The names directly inside p. */
  function Children(fs: Fs, p: Path): (names: set<string>)
    ensures forall n :: n in names <==> (p + [n] in fs.dirs || p + [n] in fs.files)
  {
    var ds := set q | q in fs.dirs && |q| == |p| + 1 && q[..|p|] == p :: q[|p|];
    var fls := set q | q in fs.files && |q| == |p| + 1 && q[..|p|] == p :: q[|p|];
    forall n ensures n in ds + fls <==> (p + [n] in fs.dirs || p + [n] in fs.files) {
      var q := p + [n];
      assert |q| == |p| + 1 && q[..|p|] == p && q[|p|] == n;
      if n in ds {
        var q' :| q' in fs.dirs && |q'| == |p| + 1 && q'[..|p|] == p && q'[|p|] == n;
        assert q' == q;
      }
      if n in fls {
        var q' :| q' in fs.files && |q'| == |p| + 1 && q'[..|p|] == p && q'[|p|] == n;
        assert q' == q;
      }
    }
    ds + fls
  }

  // ----------------------------------------------------------------- calls

  /** `fs.mkdirSync(p)`: creates one directory inside an existing one. */
  function MkDir(fs: Fs, p: Path): (r: Result<Fs, string>)
    ensures r.Ok? <==> !Exists(fs, p) && IsDir(fs, Parent(p))
    ensures r.Err? ==> r.error == (if Exists(fs, p) then EEXIST else Missing(fs, p))
    ensures r.Ok? ==> r.value.files == fs.files && IsDir(r.value, p)
    ensures r.Ok? ==> forall q | q != p :: IsDir(r.value, q) == IsDir(fs, q)
  {
    if Exists(fs, p) then Err(EEXIST)
    else if !IsDir(fs, Parent(p)) then Err(Missing(fs, p))
    else Ok(fs.(dirs := fs.dirs + {p}))
  }

  /** `fs.writeFileSync(p, data)`: creates or overwrites a file. */
  function WriteFile(fs: Fs, p: Path, data: string): (r: Result<Fs, string>)
    ensures r.Ok? <==> !IsDir(fs, p) && IsDir(fs, Parent(p))
    ensures r.Err? ==> r.error == (if IsDir(fs, p) then EISDIR else Missing(fs, p))
    ensures r.Ok? ==> r.value.dirs == fs.dirs && r.value.files == fs.files[p := data]
  {
    if IsDir(fs, p) then Err(EISDIR)
    else if !IsDir(fs, Parent(p)) then Err(Missing(fs, p))
    else Ok(fs.(files := fs.files[p := data]))
  }

  /** `fs.readFileSync(p)`. */
  function ReadFile(fs: Fs, p: Path): (r: Result<string, string>)
    ensures r.Ok? <==> IsFile(fs, p) && !IsDir(fs, p)
    ensures r.Ok? ==> r.value == fs.files[p]
    ensures r.Err? ==> r.error == (if IsDir(fs, p) then EISDIR else Missing(fs, p))
  {
    if IsDir(fs, p) then Err(EISDIR)
    else if !IsFile(fs, p) then Err(Missing(fs, p))
    else Ok(fs.files[p])
  }

  /** `fs.readdirSync(p)`: the entry names, in an order the model leaves
      open. */
  function ReadDir(fs: Fs, p: Path): (r: Result<set<string>, string>)
    ensures r.Ok? <==> IsDir(fs, p) && !IsFile(fs, p)
    ensures r.Ok? ==> r.value == Children(fs, p)
    ensures r.Err? ==> r.error == (if IsFile(fs, p) then ENOTDIR else Missing(fs, p))
  {
    if IsFile(fs, p) then Err(ENOTDIR)
    else if !IsDir(fs, p) then Err(Missing(fs, p))
    else Ok(Children(fs, p))
  }

  /** `fs.unlinkSync(p)`: removes a file. */
  function Unlink(fs: Fs, p: Path): (r: Result<Fs, string>)
    ensures r.Ok? <==> IsFile(fs, p) && !IsDir(fs, p)
    ensures r.Err? ==> r.error == (if IsDir(fs, p) then EISDIR else Missing(fs, p))
    ensures r.Ok? ==> r.value.dirs == fs.dirs && r.value.files == fs.files - {p}
  {
    if IsDir(fs, p) then Err(EISDIR)
    else if !IsFile(fs, p) then Err(Missing(fs, p))
    else Ok(fs.(files := fs.files - {p}))
  }

  /** `fs.rmdirSync(p)`: removes an empty directory. */
  function RmDir(fs: Fs, p: Path): (r: Result<Fs, string>)
    ensures r.Ok? <==> p != [] && p in fs.dirs && !IsFile(fs, p) && Children(fs, p) == {}
    ensures r.Ok? ==> r.value.files == fs.files && r.value.dirs == fs.dirs - {p}
  {
    if IsFile(fs, p) then Err(ENOTDIR)
    else if !IsDir(fs, p) then Err(Missing(fs, p))
    else if p == [] then Err(EBUSY)
    else if Children(fs, p) != {} then Err(ENOTEMPTY)
    else Ok(fs.(dirs := fs.dirs - {p}))
  }

  // ---------------------------------------------------------------- lemmas

  /** Each call that changes the file system keeps it well formed. */
  lemma MkDirWf(fs: Fs, p: Path)
    requires Wf(fs) && MkDir(fs, p).Ok?
    requires p != [] ==> IsName(p[|p| - 1])
    ensures Wf(MkDir(fs, p).value)
  {
    var fs' := MkDir(fs, p).value;
    forall q | q in fs'.dirs || q in fs'.files ensures Placed(fs', q) {
      if q != p {
        assert Placed(fs, q);
      }
    }
  }

  lemma WriteFileWf(fs: Fs, p: Path, data: string)
    requires Wf(fs) && WriteFile(fs, p, data).Ok?
    requires p != [] ==> IsName(p[|p| - 1])
    ensures Wf(WriteFile(fs, p, data).value)
  {
    var fs' := WriteFile(fs, p, data).value;
    forall q | q in fs'.dirs || q in fs'.files ensures Placed(fs', q) {
      if q != p {
        assert Placed(fs, q);
      }
    }
  }

  lemma UnlinkWf(fs: Fs, p: Path)
    requires Wf(fs) && Unlink(fs, p).Ok?
    ensures Wf(Unlink(fs, p).value)
  {
    var fs' := Unlink(fs, p).value;
    forall q | q in fs'.dirs || q in fs'.files ensures Placed(fs', q) {
      assert Placed(fs, q);
    }
  }

  lemma RmDirWf(fs: Fs, p: Path)
    requires Wf(fs) && RmDir(fs, p).Ok?
    ensures Wf(RmDir(fs, p).value)
  {
    var fs' := RmDir(fs, p).value;
    forall q | q in fs'.dirs || q in fs'.files ensures Placed(fs', q) {
      assert Placed(fs, q);
      assert q == Parent(q) + [q[|q| - 1]];
      assert q[|q| - 1] in Children(fs, Parent(q));
    }
  }

  /** What is written is read back; other files read as before. */
  lemma WriteRead(fs: Fs, p: Path, data: string, q: Path)
    requires WriteFile(fs, p, data).Ok?
    ensures ReadFile(WriteFile(fs, p, data).value, p) == Ok(data)
    ensures q != p ==> (ReadFile(WriteFile(fs, p, data).value, q).Ok? <==> ReadFile(fs, q).Ok?)
    ensures q != p && ReadFile(fs, q).Ok? ==> ReadFile(WriteFile(fs, p, data).value, q) == ReadFile(fs, q)
  {
  }
}
