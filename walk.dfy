/** `dirSize` (main.go:38-67) and the behaviour of `filepath.Walk` it
    relies on, over the filesystem value of module FileTree. */
module SizeWalker {
  import opened Wrappers
  import opened FileTree

  /** The string the walk callback compares each base name with. */
  const ExcludedName: string := "/etc/kubernetes/static-pod-resources/bin"

  /** What `os.FileInfo` tells the callback about an entry. */
  datatype FileInfo = FileInfo(name: Name, size: nat, isDir: bool)

  /** The errors a walk can end with: the `SkipDir` signal, or a failure
      passed up from the callback. */
  datatype WalkError = SkipDir | Failed(cause: FsError)

  /** The variables `size` and `dirs` that the walk callback of `dirSize`
      captures and updates on every call. */
  class WalkState {
    var size: nat
    var dirs: seq<string>

    constructor ()
      ensures size == 0 && dirs == []
    {
      size := 0;
      dirs := [];
    }

    /** The walk callback.  An error skips the entry (recording its path
        when it is a permission error); otherwise a non-directory's size is
        added unless its base name is `ExcludedName`, which, since a base
        name holds no '/', never happens. */
    method Visit(path: string, info: Option<FileInfo>, err: Option<FsError>) returns (r: Option<WalkError>)
      requires err.None? ==> info.Some?
      modifies this
      ensures err.Some? ==>
        && r == Some(SkipDir)
        && size == old(size)
        && dirs == old(dirs) + (if err.value == Permission then [path] else [])
      ensures err.None? ==>
        && r.None?
        && dirs == old(dirs)
        && size == old(size) + (if info.value.isDir then 0 else info.value.size)
    {
      if err.Some? {
        if err.value == Permission {
          dirs := dirs + [path];
        }
        return Some(SkipDir);
      }
      if !info.value.isDir {
        assert ExcludedName[0] == '/';
        if info.value.name != ExcludedName {
          size := size + info.value.size;
        }
      }
      return None;
    }
  }

  /** `filepath.walk`: visit an entry whose `Lstat` succeeded, then, for a
      readable directory, each of its entries in turn.  An entry whose
      `Lstat` fails is reported to the callback and skipped; a directory the
      callback skips ends only that directory's walk. */
  method WalkNode(path: string, n: Node, st: WalkState) returns (e: Option<WalkError>)
    requires !n.Unstattable?
    modifies st
    ensures st.size == old(st.size) + TreeSize(n)
    ensures st.dirs == old(st.dirs) + Denied(path, n)
    ensures e == (if n.Dir? && n.readErr.Some? then Some(SkipDir) else None)
    decreases n
  {
    match n
    case File(name, size) =>
      e := st.Visit(path, Some(FileInfo(name, size, false)), None);
    case Dir(name, statSize, readErr, children) =>
      var e1 := st.Visit(path, Some(FileInfo(name, statSize, true)), readErr);
      if readErr.Some? || e1.Some? {
        return e1;
      }
      var i := 0;
      while i < |children|
        invariant 0 <= i <= |children|
        invariant st.size == old(st.size) + ForestSize(children[..i])
        invariant st.dirs == old(st.dirs) + DeniedForest(path, children[..i])
      {
        var child := children[i];
        var filename := JoinPath(path, child.name);
        ForestStep(path, children, i);
        AppendAssoc(old(st.dirs), DeniedForest(path, children[..i]), Denied(filename, child));
        if child.Unstattable? {
          var e2 := st.Visit(filename, None, Some(child.statErr));
          if e2.Some? && e2.value != SkipDir {
            return e2;
          }
        } else {
          var e2 := WalkNode(filename, child, st);
          if e2.Some? && (!child.Dir? || e2.value != SkipDir) {
            return e2;
          }
        }
        i := i + 1;
      }
      assert children[..i] == children;
      e := None;
  }

  /** Stated apart so that the loop of `WalkNode` regroups its denied
      paths without the whole method body in view. */
  lemma AppendAssoc(a: seq<string>, b: seq<string>, c: seq<string>)
    ensures (a + b) + c == a + (b + c)
  {
  }

  /** `filepath.Walk`: an unstattable root goes to the callback with its
      error; a `SkipDir` reaching the top ends the walk without error.  With
      the callback of `dirSize` the walk never ends in an error. */
  method Walk(root: string, n: Node, st: WalkState) returns (e: Option<WalkError>)
    modifies st
    ensures st.size == old(st.size) + TreeSize(n)
    ensures st.dirs == old(st.dirs) + Denied(root, n)
    ensures e.None?
  {
    if n.Unstattable? {
      e := st.Visit(root, None, Some(n.statErr));
    } else {
      e := WalkNode(root, n, st);
    }
    if e == Some(SkipDir) {
      e := None;
    }
  }

  /** The size `dirSize(path)` computes. */
  function DirSizeOf(fs: Node, path: string): nat {
    TreeSize(Lookup(fs, path))
  }

  /** `dirSize`: the total size of the non-directory entries reachable
      from `path`, and the permission-denied paths it prints.  A root that
      cannot be stat'ed or read yields 0. */
  method DirSize(fs: Node, path: string) returns (size: nat, skipped: seq<string>)
    ensures size == TreeSize(Lookup(fs, path))
    ensures skipped == Denied(path, Lookup(fs, path))
    ensures Lookup(fs, path).Unstattable? ==> size == 0
    ensures Lookup(fs, path).Dir? && Lookup(fs, path).readErr.Some? ==> size == 0
    ensures NoPermissionErrors(Lookup(fs, path)) ==> skipped == []
  {
    var st := new WalkState();
    var err := Walk(path, Lookup(fs, path), st);
    var total: int := st.size;
    skipped := st.dirs;
    if err.Some? {
      total := 0;
    }
    size := total;
    if NoPermissionErrors(Lookup(fs, path)) {
      NoPermissionErrorsNoDenied(path, Lookup(fs, path));
    }
  }
}
