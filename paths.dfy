/** The path handling of file.js, on POSIX separators: `split('/')`,
    `path.isAbsolute`, `path.join`, and how the file system resolves a path
    string into its components. Repeated and trailing slashes give empty
    components, which resolution ignores. */
module Paths {

  /** A resolved path: its components from the root. */
  type Path = seq<string>

  /** `s.split('/')`. */
  function Split(s: string): (parts: seq<string>)
    ensures |parts| > 0
  {
    if s == [] then [""]
    else if s[|s| - 1] == '/' then Split(s[..|s| - 1]) + [""]
    else
      var init := Split(s[..|s| - 1]);
      init[..|init| - 1] + [init[|init| - 1] + [s[|s| - 1]]]
  }

  /** No part of a split string holds a '/'. */
  lemma {:induction false} SplitParts(s: string)
    ensures forall k | 0 <= k < |Split(s)| :: '/' !in Split(s)[k]
    decreases |s|
  {
    if s != [] {
      var s', c := s[..|s| - 1], s[|s| - 1];
      assert s == s' + [c];
      SplitParts(s');
      SplitStep(s', c);
      if c != '/' {
        var init := Split(s');
        assert '/' !in init[|init| - 1] + [c];
      }
    }
  }

  /** `parts.join('/')`. */
  function Join(parts: seq<string>): string
    requires |parts| > 0
  {
    if |parts| == 1 then parts[0] else Join(parts[..|parts| - 1]) + "/" + parts[|parts| - 1]
  }

  /** One more character at the end of a split string: a '/' opens a new
      empty part, any other character extends the last part. */
  lemma SplitStep(s: string, c: char)
    ensures Split(s + [c]) ==
      if c == '/' then Split(s) + [""]
      else Split(s)[..|Split(s)| - 1] + [Split(s)[|Split(s)| - 1] + [c]]
  {
    assert (s + [c])[..|s + [c]| - 1] == s;
  }

  lemma DropLast(x: seq<string>, y: seq<string>)
    requires y != []
    ensures (x + y)[..|x + y| - 1] == x + y[..|y| - 1]
    ensures (x + y)[|x + y| - 1] == y[|y| - 1]
  {
  }

  /** Splitting at the last '/'. */
  lemma {:induction false} SplitSnoc(a: string, b: string)
    ensures Split(a + "/" + b) == Split(a) + Split(b)
    decreases |b|
  {
    if b == [] {
      SplitStep(a, '/');
      assert a + "/" + b == a + ['/'];
    } else {
      var b', c := b[..|b| - 1], b[|b| - 1];
      assert b == b' + [c];
      assert a + "/" + b == (a + "/" + b') + [c];
      SplitSnoc(a, b');
      SplitSnocStep(a, b', c);
    }
  }

  lemma SplitSnocStep(a: string, b: string, c: char)
    requires Split(a + "/" + b) == Split(a) + Split(b)
    ensures Split((a + "/" + b) + [c]) == Split(a) + Split(b + [c])
  {
    SplitStep(a + "/" + b, c);
    SplitStep(b, c);
    var x, y := Split(a), Split(b);
    if c != '/' {
      DropLast(x, y);
      var e := y[|y| - 1] + [c];
      assert (x + y[..|y| - 1]) + [e] == x + (y[..|y| - 1] + [e]);
    }
  }

  /** Joining then splitting gives the parts back. */
  lemma {:induction false} SplitJoin(parts: seq<string>)
    requires |parts| > 0 && forall k | 0 <= k < |parts| :: '/' !in parts[k]
    ensures Split(Join(parts)) == parts
  {
    if |parts| == 1 {
      SplitName(parts[0]);
    } else {
      var init := parts[..|parts| - 1];
      SplitJoin(init);
      SplitSnoc(Join(init), parts[|parts| - 1]);
      SplitName(parts[|parts| - 1]);
    }
  }

  /** Splitting then joining gives the string back. */
  lemma {:induction false} JoinSplit(s: string)
    ensures Join(Split(s)) == s
    decreases |s|
  {
    if s != [] {
      var s', c := s[..|s| - 1], s[|s| - 1];
      assert s == s' + [c];
      JoinSplit(s');
      SplitStep(s', c);
      var init := Split(s');
      if c == '/' {
        assert (init + [""])[..|init|] == init;
      } else {
        var last := init[|init| - 1] + [c];
        var parts := init[..|init| - 1] + [last];
        if |init| > 1 {
          var pre := init[..|init| - 1];
          assert init == pre + [init[|init| - 1]];
          assert parts[..|parts| - 1] == pre;
          assert Join(init) == Join(pre) + "/" + init[|init| - 1];
          assert Join(parts) == Join(pre) + "/" + last;
        }
      }
    }
  }

  lemma {:induction false} SplitName(x: string)
    requires '/' !in x
    ensures Split(x) == [x]
    decreases |x|
  {
    if x != [] {
      SplitName(x[..|x| - 1]);
      assert x[..|x| - 1] + [x[|x| - 1]] == x;
    }
  }

  /** The components that are not empty. */
  function NonEmpty(parts: seq<string>): (r: Path)
    ensures forall k | 0 <= k < |r| :: r[k] != "" && r[k] in parts
  {
    if parts == [] then []
    else if parts[|parts| - 1] == "" then NonEmpty(parts[..|parts| - 1])
    else NonEmpty(parts[..|parts| - 1]) + [parts[|parts| - 1]]
  }

  lemma NonEmptyStep(parts: seq<string>, x: string)
    ensures NonEmpty(parts + [x]) == if x == "" then NonEmpty(parts) else NonEmpty(parts) + [x]
  {
    assert (parts + [x])[..|parts|] == parts;
  }

  lemma {:induction false} NonEmptyConcat(xs: seq<string>, ys: seq<string>)
    ensures NonEmpty(xs + ys) == NonEmpty(xs) + NonEmpty(ys)
    decreases |ys|
  {
    if ys != [] {
      var ys', y := ys[..|ys| - 1], ys[|ys| - 1];
      assert ys == ys' + [y];
      assert xs + ys == (xs + ys') + [y];
      NonEmptyConcat(xs, ys');
      NonEmptyStep(xs + ys', y);
      NonEmptyStep(ys', y);
    } else {
      assert xs + ys == xs;
    }
  }

  /** The path a string names. */
  function Comps(s: string): Path
  {
    NonEmpty(Split(s))
  }

  /** A file or directory name: one non-empty component. */
  predicate IsName(x: string)
  {
    x != "" && '/' !in x
  }

  /** Every component of a resolved path is a name. */
  lemma CompsNames(s: string)
    ensures forall k | 0 <= k < |Comps(s)| :: IsName(Comps(s)[k])
  {
    SplitParts(s);
  }

  lemma NameComps(x: string)
    requires IsName(x)
    ensures Comps(x) == [x]
  {
    SplitName(x);
    assert [x][..0] == [];
    assert NonEmpty([x]) == NonEmpty([]) + [x];
  }

  /** `path.join(a, b)` names the components of a followed by those of b:
      joining adds one separator, and resolution drops the empty components
      that repeated separators leave. */
  function PathJoin(a: string, b: string): string
  {
    a + "/" + b
  }

  lemma JoinComps(a: string, b: string)
    ensures Comps(PathJoin(a, b)) == Comps(a) + Comps(b)
  {
    SplitSnoc(a, b);
    NonEmptyConcat(Split(a), Split(b));
  }

  /** `path.isAbsolute` on POSIX. */
  predicate IsAbsolute(s: string)
  {
    s != [] && s[0] == '/'
  }

  /** The root directory of a file cache: `config.path || 'cache'`, where an
      absent path is given as "". */
  function Root(configPath: string): (r: string)
    ensures r != ""
    ensures configPath != "" ==> r == configPath
  {
    if configPath == "" then "cache" else configPath
  }

  /** `path.isAbsolute(dir) ? dir : path.join(cwd, dir)`. */
  function Resolve(cwd: string, dir: string): (r: string)
    ensures IsAbsolute(dir) ==> r == dir
    ensures !IsAbsolute(dir) ==> Comps(r) == Comps(cwd) + Comps(dir)
  {
    if IsAbsolute(dir) then dir
    else
      JoinComps(cwd, dir);
      PathJoin(cwd, dir)
  }

  /** Without a configured path the cache lives in `cache` under the working
      directory. */
  lemma DefaultRoot(cwd: string)
    ensures Comps(Resolve(cwd, Root(""))) == Comps(cwd) + ["cache"]
  {
    NameComps("cache");
  }
}
