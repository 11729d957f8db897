/** mkdir_r and the reverse search it rests on, over a tree of directories. */
module Directories {
  import opened CommandLine

  /** A directory is the list of names that leads to it from the root. */
  type Dir = seq<string>

  const SLASH: set<char> := {'/'}

  /** The tree, the directories that mkdir is not permitted to make, and the working directory. */
  datatype Disk = Disk(dirs: set<Dir>, denied: set<Dir>, cwd: Dir)

  ghost predicate Closed(d: Disk) {
    && [] in d.dirs && d.cwd in d.dirs
    && forall x :: x in d.dirs && x != [] ==> x[..|x| - 1] in d.dirs
  }

  /** Path resolution; the empty path names nothing. */
  function Resolve(d: Disk, path: string): Dir
    requires path != ""
  {
    (if path[0] == '/' then [] else d.cwd) + Tokens(path, SLASH)
  }

  predicate Exists(d: Disk, path: string) {
    path != "" && Resolve(d, path) in d.dirs
  }

  /** mkdir(2): refused when the directory is there, when its parent is not, or by permission. */
  function Mkdir(d: Disk, path: string): (Disk, bool) {
    if path == "" || Exists(d, path) then (d, false) else
      var x := Resolve(d, path);
      if x == [] || x[..|x| - 1] !in d.dirs || x in d.denied then (d, false)
      else (d.(dirs := d.dirs + {x}), true)
  }

  // ---------------------------------------------------------------- strstr_r

  predicate OccursAt(s: string, needle: string, i: nat) {
    i + |needle| <= |s| && s[i..i + |needle|] == needle
  }

  /** strstr_r: where the last occurrence starts, -1 if there is none. */
  method StrstrR(s: string, needle: string) returns (at: int)
    ensures at >= 0 ==> OccursAt(s, needle, at)
    ensures forall i :: 0 <= i && at < i ==> !OccursAt(s, needle, i)
    ensures -1 <= at
  {
    var end := |s| - |needle|;
    while end >= 0
      invariant -1 <= end || |s| < |needle|
      invariant forall i :: 0 <= i && end < i ==> !OccursAt(s, needle, i)
    {
      if s[end..end + |needle|] == needle {
        return end;
      }
      end := end - 1;
    }
    at := -1;
  }

  /** The last slash of a path. */
  function LastSlash(path: string): (i: int)
    ensures -1 <= i < |path|
    ensures i >= 0 ==> path[i] == '/'
    ensures forall j :: i < j < |path| ==> path[j] != '/'
  {
    if path == "" then -1
    else if path[|path| - 1] == '/' then |path| - 1
    else LastSlash(path[..|path| - 1])
  }

  lemma OccurrencesOfSlash(path: string, i: nat)
    ensures OccursAt(path, "/", i) <==> i < |path| && path[i] == '/'
  {
  }

  // ---------------------------------------------------------------- mkdir_r

  function MakeAll(d: Disk, path: string): (Disk, bool)
    decreases |path|
  {
    if Exists(d, path) then (d, true)
    else if path == "/" then Mkdir(d, path)
    else
      var i := LastSlash(path);
      var (e, ok) := if i >= 0 then MakeAll(d, path[..i]) else (d, true);
      if !ok then (e, false)
      else if path == "" then (e, true)
      else Mkdir(e, path)
  }

  class FileSystem {
    var disk: Disk

    method MkdirR(path: string) returns (ret: int)
      modifies this
      ensures (disk, ret == 0) == MakeAll(old(disk), path) && (ret == 0 || ret == -1)
      decreases |path|
    {
      if Exists(disk, path) {
        return 0;
      }
      if path == "/" {
        var (e, ok) := Mkdir(disk, path);
        disk := e;
        return if ok then 0 else -1;
      }
      var parentEnd := StrstrR(path, "/");
      assert parentEnd == LastSlash(path) by {
        OccurrencesOfSlash(path, if parentEnd >= 0 then parentEnd else 0);
        forall i: nat ensures OccursAt(path, "/", i) <==> i < |path| && path[i] == '/' {
          OccurrencesOfSlash(path, i);
        }
        assert LastSlash(path) >= 0 ==> OccursAt(path, "/", LastSlash(path));
      }
      if parentEnd >= 0 {
        var r := MkdirR(path[..parentEnd]);
        if r == -1 {
          return -1;
        }
      }
      if |path| == 0 {
        return 0;
      }
      var (e, ok) := Mkdir(disk, path);
      disk := e;
      return if ok then 0 else -1;
    }
  }

  // ---------------------------------------------------------------- when it works and what it makes

  /** p[..k] is the path itself or one of the parents mkdir_r cuts off it. */
  ghost predicate IsCut(path: string, k: nat) {
    0 < k <= |path| && (k == |path| || path[k] == '/')
  }

  /** Every missing piece of the path has a name of its own and may be made. */
  ghost predicate Makeable(d: Disk, path: string) {
    forall k: nat :: IsCut(path, k) && Resolve(d, path[..k]) !in d.dirs ==>
      path[k - 1] != '/' && Resolve(d, path[..k]) !in d.denied
  }

  function Prefixes(x: Dir): set<Dir> {
    set k | 0 <= k <= |x| :: x[..k]
  }

  lemma ResolveSlash(d: Disk, path: string)
    requires path != ""
    ensures Resolve(d, path + "/") == Resolve(d, path)
  {
    TokensAppend(path, '/', "", SLASH);
    assert path + ['/'] + "" == path + "/";
    assert (path + "/")[0] == path[0];
  }

  lemma ResolveName(d: Disk, parent: string, name: string)
    requires Clean(name, SLASH)
    ensures Resolve(d, parent + "/" + name) == (if parent == "" then [] else Resolve(d, parent)) + [name]
  {
    var path := parent + "/" + name;
    TokensAppend(parent, '/', name, SLASH);
    TokensOfWord(name, "", SLASH);
    assert name + "" == name && parent + ['/'] + name == path;
    assert parent != "" ==> path[0] == parent[0];
  }

  lemma ResolveBare(d: Disk, name: string)
    requires Clean(name, SLASH)
    ensures Resolve(d, name) == d.cwd + [name]
  {
    TokensOfWord(name, "", SLASH);
    assert name + "" == name;
  }

  lemma {:induction false} PrefixIn(d: Disk, x: Dir, k: nat)
    requires Closed(d) && x in d.dirs && k <= |x|
    ensures x[..k] in d.dirs
    decreases |x|
  {
    if k == |x| {
      assert x[..k] == x;
    } else {
      PrefixIn(d, x[..|x| - 1], k);
      assert x[..|x| - 1][..k] == x[..k];
    }
  }

  lemma PrefixesIn(d: Disk, x: Dir)
    requires Closed(d) && x in d.dirs
    ensures Prefixes(x) <= d.dirs
  {
    forall y | y in Prefixes(x) ensures y in d.dirs {
      var k :| 0 <= k <= |x| && y == x[..k];
      PrefixIn(d, x, k);
    }
  }

  lemma PrefixesSnoc(x: Dir, name: string)
    ensures Prefixes(x + [name]) == Prefixes(x) + {x + [name]}
  {
    var y := x + [name];
    assert y[..|y|] == y;
    assert forall k :: 0 <= k <= |x| ==> y[..k] == x[..k];
  }

  /** A cut of a path resolves to an ancestor of what the path resolves to. */
  lemma CutIsAncestor(d: Disk, path: string, k: nat)
    requires IsCut(path, k)
    ensures Resolve(d, path[..k]) <= Resolve(d, path)
  {
    if k == |path| {
      assert path[..k] == path;
    } else {
      TokensAppend(path[..k], '/', path[k + 1..], SLASH);
      assert path[..k] + ['/'] + path[k + 1..] == path;
    }
  }

  lemma ExistingIsMakeable(d: Disk, path: string)
    requires Closed(d) && Exists(d, path)
    ensures Makeable(d, path)
  {
    forall k: nat | IsCut(path, k) ensures Resolve(d, path[..k]) in d.dirs {
      CutIsAncestor(d, path, k);
      var x, y := Resolve(d, path[..k]), Resolve(d, path);
      PrefixIn(d, y, |x|);
      assert y[..|x|] == x;
    }
  }

  /** The last piece of a path on its own. */
  ghost predicate LastMakeable(d: Disk, path: string)
    requires path != ""
  {
    Resolve(d, path) !in d.dirs ==> path[|path| - 1] != '/' && Resolve(d, path) !in d.denied
  }

  lemma MakeableStep(d: Disk, path: string)
    requires path != ""
    ensures var i := LastSlash(path);
            Makeable(d, path) <==> LastMakeable(d, path) && (i >= 0 ==> Makeable(d, path[..i]))
  {
    var i := LastSlash(path);
    assert path[..|path|] == path && IsCut(path, |path|);
    if i >= 0 {
      forall k: nat ensures IsCut(path[..i], k) <==> IsCut(path, k) && k <= i {
      }
      assert forall k: nat :: k <= i ==> path[..i][..k] == path[..k];
      assert forall k: nat :: IsCut(path, k) && k < |path| ==> k <= i;
    } else {
      assert forall k: nat :: IsCut(path, k) ==> k == |path|;
    }
  }

  /** What mkdir_r does with a path that is not there, given what it did with the parent. */
  ghost predicate Outcome(d: Disk, path: string, e: Disk, ok: bool) {
    && Closed(e) && e == d.(dirs := e.dirs) && d.dirs <= e.dirs
    && (ok <==> Makeable(d, path))
    && (path == "" ==> e == d)
    && (path != "" ==> e.dirs <= d.dirs + Prefixes(Resolve(d, path)))
    && (path != "" && ok ==> e.dirs == d.dirs + Prefixes(Resolve(d, path)))
  }

  lemma MakeBare(d: Disk, name: string)
    requires Closed(d) && Clean(name, SLASH) && !Exists(d, name)
    ensures var (e, ok) := Mkdir(d, name); Outcome(d, name, e, ok)
  {
    ResolveBare(d, name);
    MakeableStep(d, name);
    PrefixesSnoc(d.cwd, name);
    PrefixesIn(d, d.cwd);
    assert (d.cwd + [name])[..|d.cwd|] == d.cwd;
  }

  lemma MakeSlashed(d: Disk, parent: string, e: Disk, ok: bool)
    requires Closed(d) && parent != "" && !Exists(d, parent + "/") && Outcome(d, parent, e, ok)
    ensures var (f, done) := if ok then Mkdir(e, parent + "/") else (e, false); Outcome(d, parent + "/", f, done)
  {
    var path := parent + "/";
    ResolveSlash(d, parent);
    ResolveSlash(e, parent);
    MakeableStep(d, path);
    assert path[|path| - 1] == '/';
    if ok {
      var x := Resolve(d, parent);
      assert x[..|x|] == x && x in Prefixes(x);
      assert Resolve(e, path) == x;
    }
  }

  lemma MakeNamed(d: Disk, parent: string, name: string, e: Disk, ok: bool)
    requires Closed(d) && Clean(name, SLASH) && !Exists(d, parent + "/" + name) && Outcome(d, parent, e, ok)
    ensures var path := parent + "/" + name;
            var (f, done) := if ok then Mkdir(e, path) else (e, false);
            Outcome(d, path, f, done)
  {
    var path := parent + "/" + name;
    var x := if parent == "" then [] else Resolve(d, parent);
    var y := x + [name];
    ResolveName(d, parent, name);
    ResolveName(e, parent, name);
    MakeableStep(d, path);
    NamedSlash(parent, name);
    PrefixesIn(d, []);
    assert Makeable(d, path) <==> ok && y !in d.denied;
    NewChild(d, path, x, name, e, ok);
  }

  /** mkdir of a path that names a child of x, after x has been made or not. */
  lemma NewChild(d: Disk, path: string, x: Dir, name: string, e: Disk, ok: bool)
    requires path != "" && Resolve(e, path) == Resolve(d, path) == x + [name] && x + [name] !in d.dirs
    requires Closed(e) && e == d.(dirs := e.dirs) && d.dirs <= e.dirs <= d.dirs + Prefixes(x)
    requires ok ==> e.dirs == d.dirs + Prefixes(x)
    requires Makeable(d, path) <==> ok && x + [name] !in d.denied
    ensures var (f, done) := if ok then Mkdir(e, path) else (e, false); Outcome(d, path, f, done)
  {
    PrefixesSnoc(x, name);
    if ok {
      AddChild(d, e, x, name);
      assert (x + [name])[..|x|] == x;
    }
  }

  lemma AddChild(d: Disk, e: Disk, x: Dir, name: string)
    requires Closed(e) && e.dirs == d.dirs + Prefixes(x) && x + [name] !in d.dirs
    ensures x in e.dirs && x + [name] !in e.dirs
    ensures Closed(e.(dirs := e.dirs + {x + [name]}))
    ensures e.dirs + {x + [name]} == d.dirs + Prefixes(x + [name])
  {
    PrefixesSnoc(x, name);
    assert x[..|x|] == x && x in Prefixes(x);
    assert (x + [name])[..|x|] == x;
  }

  lemma NamedSlash(parent: string, name: string)
    requires Clean(name, SLASH)
    ensures LastSlash(parent + "/" + name) == |parent| && (parent + "/" + name)[..|parent|] == parent
    ensures var path := parent + "/" + name; path[|path| - 1] != '/'
  {
    var path := parent + "/" + name;
    assert path[|parent|] == '/';
    assert forall j :: |parent| < j < |path| ==> path[j] == name[j - |parent| - 1];
  }

  lemma RootExists(d: Disk)
    requires Closed(d)
    ensures Exists(d, "/")
  {
    assert "/"[0] in SLASH && "/"[1..] == "";
    assert Tokens("/", SLASH) == Tokens("", SLASH) == [];
    assert Resolve(d, "/") == [];
  }

  lemma PathParts(path: string, parent: string, name: string)
    requires LastSlash(path) >= 0 && parent == path[..LastSlash(path)] && name == path[LastSlash(path) + 1..]
    ensures path == parent + "/" + name && (name != "" ==> Clean(name, SLASH))
    ensures name == "" ==> path == parent + "/" && (path != "/" ==> parent != "")
  {
  }

  lemma {:induction false} MakeLast(d: Disk, path: string, e: Disk, ok: bool)
    requires Closed(d) && path != "" && path != "/" && !Exists(d, path) && LastSlash(path) >= 0
    requires Outcome(d, path[..LastSlash(path)], e, ok)
    ensures var (f, done) := if ok then Mkdir(e, path) else (e, false); Outcome(d, path, f, done)
  {
    var i := LastSlash(path);
    var parent, name := path[..i], path[i + 1..];
    PathParts(path, parent, name);
    if name == "" {
      MakeSlashed(d, parent, e, ok);
    } else {
      MakeNamed(d, parent, name, e, ok);
    }
  }

  /** mkdir_r succeeds exactly when every missing piece of the path is makeable; it then adds exactly
      the missing ancestors of the path and the path, and in any case nothing else. */
  lemma {:induction false} MakeAllExact(d: Disk, path: string)
    requires Closed(d)
    ensures var (e, ok) := MakeAll(d, path); Outcome(d, path, e, ok)
    decreases |path|
  {
    RootExists(d);
    if Exists(d, path) {
      ExistingIsMakeable(d, path);
      PrefixesIn(d, Resolve(d, path));
    } else if path == "" {
    } else {
      var i := LastSlash(path);
      if i < 0 {
        MakeBare(d, path);
      } else {
        MakeAllExact(d, path[..i]);
        var (e, ok) := MakeAll(d, path[..i]);
        MakeLast(d, path, e, ok);
      }
    }
  }

  /** A trailing slash makes mkdir_r report failure for a directory it has just made. */
  lemma TrailingSlashFails(d: Disk, path: string)
    requires Closed(d) && path != "" && !Exists(d, path)
    ensures !MakeAll(d, path + "/").1
    ensures Makeable(d, path) ==> Exists(MakeAll(d, path + "/").0, path)
  {
    var (e, ok) := MakeAll(d, path);
    MakeAllExact(d, path);
    MakeAllExact(d, path + "/");
    ResolveSlash(d, path);
    MakeableStep(d, path + "/");
    var slashed := path + "/";
    assert LastSlash(slashed) == |path| && slashed[..|path|] == path;
    if ok {
      var x := Resolve(d, path);
      assert x[..|x|] == x && x in Prefixes(x);
      ResolveSlash(e, path);
      assert Exists(e, slashed);
      assert MakeAll(d, slashed).0 == e;
    }
  }
}
