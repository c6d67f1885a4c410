/** The POSIX path operations the stage methods use to derive file names
    (`os.path.join`, `os.path.basename`, the root half of `os.path.splitext`)
    and the directory matching done by `glob.glob` for the patterns the
    workflow builds, which all have the shape `<dir>/<prefix>*<suffix>`. */
module PosixPath {
  import opened Text

  /** Python's `s.rfind(c)`: the index of the last `c` in `s`, or -1. */
  function RFind(s: string, c: char): (i: int)
    ensures -1 <= i < |s|
    ensures i >= 0 ==> s[i] == c
    ensures forall k :: i < k < |s| ==> s[k] != c
  {
    if s == [] then -1
    else if s[|s| - 1] == c then |s| - 1
    else RFind(s[..|s| - 1], c)
  }

  /** Characters appended after the last `c` do not move it. */
  lemma {:induction false} RFindAppend(a: string, b: string, c: char)
    requires c !in b
    ensures RFind(a + b, c) == RFind(a, c)
  {
    if b == [] {
      assert a + b == a;
    } else {
      var b' := b[..|b| - 1];
      assert (a + b)[|a + b| - 1] == b[|b| - 1] != c;
      assert (a + b)[..|a + b| - 1] == a + b';
      RFindAppend(a, b', c);
    }
  }

  /** `os.path.join(dir, name)` on POSIX: an absolute `name` replaces `dir`;
      otherwise one '/' separates them unless `dir` is empty or already ends
      with '/'. */
  function Join(dir: string, name: string): string
  {
    if |name| > 0 && name[0] == '/' then name
    else JoinPrefix(dir) + name
  }

  /** The joined path ends with the name; an absolute name is the whole
      path, and a relative one follows `dir` and at most one added '/'. */
  lemma JoinShape(dir: string, name: string)
    ensures var p := Join(dir, name);
      |name| <= |p| && p[|p| - |name|..] == name &&
      (|name| > 0 && name[0] == '/' ==> p == name) &&
      (!(|name| > 0 && name[0] == '/') ==>
        p[..|p| - |name|] == JoinPrefix(dir) &&
        (dir == [] || dir[|dir| - 1] == '/' ==> JoinPrefix(dir) == dir) &&
        (dir != [] && dir[|dir| - 1] != '/' ==> JoinPrefix(dir) == dir + "/"))
  {
  }

  /** What `Join` puts in front of a relative name: empty, or `dir` ending in '/'. */
  function JoinPrefix(dir: string): (pre: string)
    ensures pre == [] || pre[|pre| - 1] == '/'
  {
    if dir == [] || dir[|dir| - 1] == '/' then dir else dir + "/"
  }

  /** `os.path.basename(p)` on POSIX: what follows the last '/'. */
  function BaseName(p: string): (b: string)
    ensures '/' !in b
  {
    p[RFind(p, '/') + 1..]
  }

  /** The base name is a suffix of the path, preceded by a '/' unless it is
      the whole path. */
  lemma BaseNameShape(p: string)
    ensures var b := BaseName(p);
      |b| <= |p| && p[|p| - |b|..] == b &&
      (|b| < |p| ==> p[|p| - |b| - 1] == '/')
  {
  }

  /** The root half of `os.path.splitext(name)` for a name without '/':
      the name up to its last '.', unless every character before that dot is
      itself a dot (then nothing is split off). */
  function SplitExtRoot(name: string): string
  {
    var dot := RFind(name, '.');
    if dot >= 0 && exists k :: 0 <= k < dot && name[k] != '.' then name[..dot] else name
  }

  /** The root is a prefix of the name; what is split off starts with the
      name's last '.', and something other than a dot precedes it. When nothing
      is split off, only dots precede the last '.'. */
  lemma SplitExtRootShape(name: string)
    ensures var root := SplitExtRoot(name);
      |root| <= |name| && name[..|root|] == root &&
      (|root| < |name| ==>
         name[|root|] == '.' && '.' !in name[|root| + 1..] && HasNonDot(root)) &&
      (|root| == |name| ==>
         forall k :: 0 <= k < RFind(name, '.') ==> name[k] == '.')
  {
    var dot := RFind(name, '.');
    var root := SplitExtRoot(name);
    if |root| < |name| {
      assert forall k :: dot + 1 <= k < |name| ==> name[k] != '.';
      var k :| 0 <= k < dot && name[k] != '.';
      assert root[k] == name[k];
    }
  }

  /** `os.path.splitext(os.path.basename(p))[0]`, the base name the stage
      methods derive every per-tile file name from. */
  function Stem(p: string): string
  {
    SplitExtRoot(BaseName(p))
  }

  /** A name that is not made of dots only. */
  predicate HasNonDot(name: string)
  {
    exists k :: 0 <= k < |name| && name[k] != '.'
  }

  /** A relative name without '/' joined onto any directory is its own base name. */
  lemma BaseNameOfJoin(dir: string, name: string)
    requires |name| > 0 && name[0] != '/' && '/' !in name
    ensures BaseName(Join(dir, name)) == name
  {
    var pre := JoinPrefix(dir);
    assert Join(dir, name) == pre + name;
    RFindAppend(pre, name, '/');
    if pre != [] {
      assert RFind(pre, '/') == |pre| - 1;
    }
  }

  /** Joining `name.ext` onto a directory and taking its stem gives `name`
      back: the file names of one stage decode to the base names the next
      stage builds on. */
  lemma StemOfJoin(dir: string, name: string, ext: string)
    requires '/' !in name && '/' !in ext && '.' !in ext && HasNonDot(name)
    ensures Stem(Join(dir, name + "." + ext)) == name
  {
    var f := name + "." + ext;
    assert f[0] == name[0];
    NoSlashInExtended(name, ext);
    BaseNameOfJoin(dir, f);
    RootOfExtended(name, ext);
  }

  lemma NoSlashInExtended(name: string, ext: string)
    requires '/' !in name && '/' !in ext
    ensures '/' !in name + "." + ext
  {
    var f := name + "." + ext;
    forall k | 0 <= k < |f| ensures f[k] != '/' {
      if k < |name| { assert f[k] == name[k]; }
      else if k > |name| { assert f[k] == ext[k - |name| - 1]; }
    }
  }

  lemma RootOfExtended(name: string, ext: string)
    requires '.' !in ext && HasNonDot(name)
    ensures SplitExtRoot(name + "." + ext) == name
  {
    var f := name + "." + ext;
    assert f == (name + ".") + ext;
    RFindAppend(name + ".", ext, '.');
    assert RFind(name + ".", '.') == |name|;
    var k :| 0 <= k < |name| && name[k] != '.';
    assert f[k] == name[k];
    assert f[..|name|] == name;
  }

  /** Whether `glob` returns `name` for the pattern `<prefix>*<suffix>`
      (with no other wildcard in prefix or suffix): `name` starts with
      `prefix`, ends with `suffix`, the two do not overlap, and a name that
      starts with '.' is matched only when the pattern itself does. */
  predicate GlobMatch(prefix: string, suffix: string, name: string)
  {
    |prefix| + |suffix| <= |name| &&
    name[..|prefix|] == prefix &&
    name[|name| - |suffix|..] == suffix &&
    (|name| > 0 && name[0] == '.' ==> |prefix| > 0)
  }

  /** `glob.glob(os.path.join(dir, prefix + "*" + suffix))` when the directory
      holds the names in `listing`, returned in listing order. */
  function Glob(dir: string, listing: seq<string>, prefix: string, suffix: string): (paths: seq<string>)
    ensures |paths| <= |listing|
    ensures forall p :: p in paths <==>
      exists n :: n in listing && GlobMatch(prefix, suffix, n) && p == Join(dir, n)
  {
    if listing == [] then []
    else
      var rest := Glob(dir, listing[1..], prefix, suffix);
      assert forall n :: n in listing <==> n == listing[0] || n in listing[1..];
      if GlobMatch(prefix, suffix, listing[0]) then [Join(dir, listing[0])] + rest else rest
  }
}
