/** The filesystem that the size walk reads, as a value.

    A `Node` is what `os.Lstat` and a directory read report for one entry:
    a non-directory with its size, a directory with the outcome of reading it
    and its entries, or an entry whose `Lstat` fails.  Paths are resolved
    against one root directory. */
module FileTree {
  import opened Wrappers

  /** A base name as a directory listing returns it: never empty, never
      containing a '/'. */
  type Name = s: string | s != "" && '/' !in s witness "a"

  /** The two kinds of error the walk tells apart: those for which
      `errors.Is(err, fs.ErrPermission)` holds, and all others. */
  datatype FsError = Permission | OtherError

  datatype Node =
    /** Any entry that is not a directory (regular file, symlink, device),
        with the size `Lstat` reports for it. */
    | File(name: Name, size: nat)
    /** A directory: its own `Lstat` size, the error reading its entries
        (if any) and the entries themselves, in the order a walk visits them. */
    | Dir(name: Name, statSize: nat, readErr: Option<FsError>, children: seq<Node>)
    /** An entry whose `Lstat` fails. */
    | Unstattable(name: Name, statErr: FsError)

  /** No directory holds two entries with the same name. */
  ghost predicate DistinctNames(cs: seq<Node>) {
    forall i, j :: 0 <= i < j < |cs| ==> cs[i].name != cs[j].name
  }

  // ---------------------------------------------------------------------
  // Paths

  predicate EndsWithSlash(p: string) {
    |p| > 0 && p[|p| - 1] == '/'
  }

  /** Index at which the last path element of `p` begins. */
  function BaseStart(p: string): (j: nat)
    ensures j <= |p|
    ensures forall k :: j <= k < |p| ==> p[k] != '/'
    ensures 0 < j ==> p[j - 1] == '/'
    decreases |p|
  {
    if p == [] then 0
    else if p[|p| - 1] == '/' then |p|
    else BaseStart(p[..|p| - 1])
  }

  /** The non-empty elements of a slash-separated path, in order. */
  function Components(p: string): seq<Name>
    decreases |p|
  {
    if p == [] then []
    else if EndsWithSlash(p) then Components(p[..|p| - 1])
    else
      var j := BaseStart(p);
      assert '/' !in p[j..] by {
        forall k | 0 <= k < |p[j..]| ensures p[j..][k] != '/' { assert p[j..][k] == p[j + k]; }
      }
      Components(p[..j]) + [p[j..]]
  }

  /** `filepath.Join(dir, name)` for a directory path that is already clean
      apart from a trailing slash. */
  function JoinPath(dir: string, name: Name): string {
    if dir == "" then name
    else if EndsWithSlash(dir) then dir + name
    else dir + "/" + name
  }

  /** The first entry of `cs` called `name`. */
  function FindChild(cs: seq<Node>, name: Name): (r: Option<Node>)
    ensures r.Some? ==> r.value in cs && r.value.name == name
    ensures r.Some? ==>
      exists i :: 0 <= i < |cs| && cs[i] == r.value && forall j :: 0 <= j < i ==> cs[j].name != name
    ensures r.None? ==> forall c :: c in cs ==> c.name != name
  {
    if cs == [] then None
    else if cs[0].name == name then Some(cs[0])
    else FindChild(cs[1..], name)
  }

  /** What `Lstat` finds by following `comps` down from `n`: a missing
      entry or a non-directory in the middle fails like ENOENT / ENOTDIR,
      and an entry that cannot be stat'ed makes everything under it fail
      the same way. */
  function Resolve(n: Node, comps: seq<Name>): Node
    decreases |comps|
  {
    if comps == [] then n
    else match n
      case File(_, _) => Unstattable(comps[|comps| - 1], OtherError)
      case Unstattable(_, e) => Unstattable(comps[|comps| - 1], e)
      case Dir(_, _, _, cs) =>
        match FindChild(cs, comps[0])
        case None => Unstattable(comps[|comps| - 1], OtherError)
        case Some(c) => Resolve(c, comps[1..])
  }

  /** The entry `Lstat(path)` reports in the filesystem rooted at `fs`; a
      trailing slash after a non-directory fails with ENOTDIR. */
  function Lookup(fs: Node, path: string): Node {
    var n := Resolve(fs, Components(path));
    if EndsWithSlash(path) && n.File? then Unstattable(n.name, OtherError) else n
  }

  // ---------------------------------------------------------------------
  // What a walk finds

  /** Sum of the sizes of the non-directory entries reachable from `n`
      through directories that can be read.  A directory's own size is not
      part of it; an entry that cannot be stat'ed or read contributes 0. */
  function TreeSize(n: Node): nat
    decreases n
  {
    match n
    case File(_, size) => size
    case Dir(_, _, readErr, cs) => if readErr.None? then ForestSize(cs) else 0
    case Unstattable(_, _) => 0
  }

  function ForestSize(cs: seq<Node>): nat
    decreases cs
  {
    if cs == [] then 0 else ForestSize(cs[..|cs| - 1]) + TreeSize(cs[|cs| - 1])
  }

  /** The paths, in walk order, of the entries under `path` whose stat or
      read fails with a permission error. */
  function Denied(path: string, n: Node): seq<string>
    decreases n
  {
    match n
    case File(_, _) => []
    case Dir(_, _, readErr, cs) =>
      if readErr == Some(Permission) then [path]
      else if readErr.Some? then []
      else DeniedForest(path, cs)
    case Unstattable(_, e) => if e == Permission then [path] else []
  }

  function DeniedForest(dir: string, cs: seq<Node>): seq<string>
    decreases cs
  {
    if cs == [] then []
    else DeniedForest(dir, cs[..|cs| - 1]) + Denied(JoinPath(dir, cs[|cs| - 1].name), cs[|cs| - 1])
  }

  /** `f` is a non-directory entry the walk reaches from `n`. */
  ghost predicate VisibleFile(n: Node, f: Node)
    decreases n
  {
    match n
    case File(_, _) => f == n
    case Dir(_, _, readErr, cs) => readErr.None? && exists i :: 0 <= i < |cs| && VisibleFile(cs[i], f)
    case Unstattable(_, _) => false
  }

  /** No entry under `n` fails with a permission error. */
  ghost predicate NoPermissionErrors(n: Node)
    decreases n
  {
    match n
    case File(_, _) => true
    case Dir(_, _, readErr, cs) =>
      readErr != Some(Permission) && forall i :: 0 <= i < |cs| ==> NoPermissionErrors(cs[i])
    case Unstattable(_, e) => e != Permission
  }

  /** Every directory met while following `comps` down from `n` can be read. */
  ghost predicate ReadableAlong(n: Node, comps: seq<Name>)
    decreases |comps|
  {
    comps == [] ||
    (n.Dir? ==>
      n.readErr.None? &&
      (FindChild(n.children, comps[0]).Some? ==>
        ReadableAlong(FindChild(n.children, comps[0]).value, comps[1..])))
  }

  // ---------------------------------------------------------------------
  // Lemmas about the walk total

  lemma {:induction false} ForestSizeAppend(a: seq<Node>, b: seq<Node>)
    ensures ForestSize(a + b) == ForestSize(a) + ForestSize(b)
    decreases |b|
  {
    if b == [] {
      assert a + b == a;
    } else {
      var b' := b[..|b| - 1];
      assert (a + b)[..|a + b| - 1] == a + b';
      assert (a + b)[|a + b| - 1] == b[|b| - 1];
      ForestSizeAppend(a, b');
    }
  }

  /** Walking one more entry of a directory adds its size and its denied
      paths. */
  lemma ForestStep(dir: string, cs: seq<Node>, i: nat)
    requires i < |cs|
    ensures ForestSize(cs[..i + 1]) == ForestSize(cs[..i]) + TreeSize(cs[i])
    ensures DeniedForest(dir, cs[..i + 1]) ==
      DeniedForest(dir, cs[..i]) + Denied(JoinPath(dir, cs[i].name), cs[i])
  {
    assert cs[..i + 1][..i] == cs[..i];
  }

  lemma ForestSizeSplit(cs: seq<Node>, i: nat)
    requires i < |cs|
    ensures ForestSize(cs) == ForestSize(cs[..i]) + TreeSize(cs[i]) + ForestSize(cs[i + 1..])
  {
    assert cs == cs[..i] + [cs[i]] + cs[i + 1..];
    ForestSizeAppend(cs[..i] + [cs[i]], cs[i + 1..]);
    ForestSizeAppend(cs[..i], [cs[i]]);
    assert ([] + [cs[i]])[..0] == [];
    assert ForestSize([cs[i]]) == ForestSize([]) + TreeSize(cs[i]) by {
      assert [cs[i]][..0] == [];
    }
  }

  /** An entry whose stat or read fails takes out only its own subtree:
      the total is what it was less that entry's share, so every sibling is
      still counted. */
  lemma SkippedEntryKeepsSiblings(cs: seq<Node>, i: nat, blocked: Node)
    requires i < |cs|
    requires blocked.Unstattable? || (blocked.Dir? && blocked.readErr.Some?)
    ensures ForestSize(cs[i := blocked]) == ForestSize(cs) - TreeSize(cs[i])
  {
    var cs' := cs[i := blocked];
    ForestSizeSplit(cs, i);
    ForestSizeSplit(cs', i);
    assert cs'[..i] == cs[..i] && cs'[i + 1..] == cs[i + 1..];
  }

  /** The total is at least the size of any single visible file. */
  lemma {:induction false} VisibleFileBounded(n: Node, f: Node)
    requires VisibleFile(n, f)
    ensures f.File? && f.size <= TreeSize(n)
    decreases n
  {
    match n
    case File(_, _) =>
    case Dir(_, _, _, cs) =>
      var i :| 0 <= i < |cs| && VisibleFile(cs[i], f);
      VisibleFileBounded(cs[i], f);
      ForestSizeSplit(cs, i);
  }

  /** A tree without permission errors produces no diagnostic path. */
  lemma {:induction false} NoPermissionErrorsNoDenied(path: string, n: Node)
    requires NoPermissionErrors(n)
    ensures Denied(path, n) == []
    decreases n
  {
    match n
    case File(_, _) =>
    case Unstattable(_, _) =>
    case Dir(_, _, readErr, cs) =>
      if readErr.None? { NoPermissionErrorsNoDeniedForest(path, cs); }
  }

  lemma {:induction false} NoPermissionErrorsNoDeniedForest(dir: string, cs: seq<Node>)
    requires forall i :: 0 <= i < |cs| ==> NoPermissionErrors(cs[i])
    ensures DeniedForest(dir, cs) == []
    decreases cs
  {
    if cs != [] {
      NoPermissionErrorsNoDeniedForest(dir, cs[..|cs| - 1]);
      NoPermissionErrorsNoDenied(JoinPath(dir, cs[|cs| - 1].name), cs[|cs| - 1]);
    }
  }

  /** A listed entry's subtree is never larger than its directory's. */
  lemma ChildBounded(cs: seq<Node>, c: Node)
    requires c in cs
    ensures TreeSize(c) <= ForestSize(cs)
  {
    var i :| 0 <= i < |cs| && cs[i] == c;
    ForestSizeSplit(cs, i);
  }

  /** What lies below `n` weighs no more than `n`, as long as every
      directory on the way can be read. */
  lemma {:induction false} SubtreeBounded(n: Node, comps: seq<Name>)
    requires ReadableAlong(n, comps)
    ensures TreeSize(Resolve(n, comps)) <= TreeSize(n)
    decreases |comps|
  {
    if comps != [] && n.Dir? {
      var r := FindChild(n.children, comps[0]);
      if r.Some? {
        SubtreeBounded(r.value, comps[1..]);
        ChildBounded(n.children, r.value);
      }
    }
  }

  // ---------------------------------------------------------------------
  // Lemmas about paths

  lemma {:induction false} BaseStartAfterSlash(s: string, t: string)
    requires EndsWithSlash(s)
    requires '/' !in t
    ensures BaseStart(s + t) == |s|
    decreases |t|
  {
    if t == [] {
      assert s + t == s;
    } else {
      assert (s + t)[|s + t| - 1] == t[|t| - 1];
      assert t[|t| - 1] in t;
      assert (s + t)[..|s + t| - 1] == s + t[..|t| - 1];
      var u := t[..|t| - 1];
      assert '/' !in u by {
        forall k | 0 <= k < |u| ensures u[k] != '/' { assert t[k] in t; }
      }
      BaseStartAfterSlash(s, t[..|t| - 1]);
    }
  }

  /** Appending "/name" to a path appends one element to its components. */
  lemma ComponentsAppend(p: string, name: Name)
    ensures Components(p + "/" + name) == Components(p) + [name]
  {
    var q := p + "/" + name;
    assert q[|q| - 1] == name[|name| - 1];
    assert name[|name| - 1] in name;
    BaseStartAfterSlash(p + "/", name);
    assert q == (p + "/") + name;
    assert q[..|p| + 1] == p + "/";
    assert q[|p| + 1..] == name;
    assert (p + "/")[..|p|] == p;
  }

  lemma TrailingSlashComponents(p: string)
    ensures Components(p + "/") == Components(p)
  {
    assert (p + "/")[..|p|] == p;
  }

  /** Resolving a longer path goes through the entry the shorter one names. */
  lemma {:induction false} ResolveAppend(n: Node, comps: seq<Name>, name: Name)
    ensures Resolve(n, comps + [name]) == Resolve(Resolve(n, comps), [name])
    decreases |comps|
  {
    if comps != [] {
      assert (comps + [name])[0] == comps[0];
      assert (comps + [name])[1..] == comps[1..] + [name];
      if n.Dir? && FindChild(n.children, comps[0]).Some? {
        ResolveAppend(FindChild(n.children, comps[0]).value, comps[1..], name);
      }
    }
  }

  /** Among distinct names, looking up an entry's name finds that entry. */
  lemma FindDistinct(cs: seq<Node>, c: Node)
    requires c in cs && DistinctNames(cs)
    ensures FindChild(cs, c.name) == Some(c)
  {
    var r := FindChild(cs, c.name);
    var i :| 0 <= i < |cs| && cs[i] == c;
    var j :| 0 <= j < |cs| && cs[j] == r.value;
    assert i == j;
  }

  /** In a readable directory with distinct names, `path + "/" + name`
      names exactly the entry listed as `name`. */
  lemma ChildLookup(fs: Node, path: string, c: Node)
    requires Lookup(fs, path).Dir? && c in Lookup(fs, path).children
    requires DistinctNames(Lookup(fs, path).children)
    ensures Lookup(fs, path + "/" + c.name) == c
  {
    var d := Lookup(fs, path);
    var q := path + "/" + c.name;
    ComponentsAppend(path, c.name);
    ResolveAppend(fs, Components(path), c.name);
    assert Resolve(fs, Components(path)) == d;
    FindDistinct(d.children, c);
    assert Resolve(d, [c.name]) == Resolve(c, []);
    assert q[|q| - 1] == c.name[|c.name| - 1];
    assert c.name[|c.name| - 1] in c.name;
  }
}
