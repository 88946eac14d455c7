/** The two aggregation pipelines and the mode dispatch of `main`
    (main.go:69-101, 185-258): the estimate over a fixed list of resources,
    the actual sizes of the entries of one directory, and the choice between
    them on the first command-line argument. */
module Report {
  import opened Wrappers
  import opened FileTree
  import opened SizeWalker
  import opened DirectorySet

  /** A name and the path whose walk size is reported under it. */
  datatype Resource = Resource(name: string, dirPath: string)

  const Resources: seq<Resource> := [
    Resource("cluster", "/var/lib/etcd/member/snap/db"),
    Resource("staticPods", "/etc/kubernetes/static-pod-resources/"),
    Resource("usrLocal", "/usr/local"),
    Resource("kubelet", "/var/lib/kubelet"),
    Resource("etc", "/etc")
  ]

  /** The subtree whose size the merge moves out of "staticPods". */
  const BinPath: string := "/etc/kubernetes/static-pod-resources/bin/"

  /** The directory whose entries actual mode reports. */
  const RecoveryPath: string := "/var/recovery"

  /** The only first argument `main` accepts. */
  const ActualMode: string := "actual"

  /** The keys left in the estimate once "staticPods" is merged away. */
  const EstimateKeys: set<string> := {ClusterKey, "usrLocal", "kubelet", "etc"}

  // ---------------------------------------------------------------------
  // Measuring a list of named paths (the loops of `estimate` and
  // `makeActualDirMap`)

  /** The record both loops store for a path: the path, its walk size and a
      percentage still zero. */
  function Entry(fs: Node, dirPath: string): Directory {
    Directory(dirPath, DirSizeOf(fs, dirPath), Finite(0.0))
  }

  /** Sum of the walk sizes of the paths of `rs`. */
  function ResourcesTotal(fs: Node, rs: seq<Resource>): nat {
    if rs == [] then 0
    else ResourcesTotal(fs, rs[..|rs| - 1]) + DirSizeOf(fs, rs[|rs| - 1].dirPath)
  }

  /** The map a loop over `rs` builds: each name to the entry of its path, a
      later resource replacing an earlier one of the same name. */
  function ResourceMap(fs: Node, rs: seq<Resource>): DirMap {
    if rs == [] then map[]
    else
      var last := rs[|rs| - 1];
      ResourceMap(fs, rs[..|rs| - 1])[last.name := Entry(fs, last.dirPath)]
  }

  predicate DistinctResourceNames(rs: seq<Resource>) {
    forall a, b :: 0 <= a < b < |rs| ==> rs[a].name != rs[b].name
  }

  /** The loop: for each resource in turn, measure its path, store the entry
      under its name and add the size to the running total. */
  method MeasureResources(fs: Node, rs: seq<Resource>) returns (m: DirMap, total: int)
    ensures m == ResourceMap(fs, rs)
    ensures total == ResourcesTotal(fs, rs)
  {
    m := map[];
    total := 0;
    for i := 0 to |rs|
      invariant m == ResourceMap(fs, rs[..i])
      invariant total == ResourcesTotal(fs, rs[..i])
    {
      var size, _ := DirSize(fs, rs[i].dirPath);
      assert rs[..i + 1][..i] == rs[..i];
      m := m[rs[i].name := Directory(rs[i].dirPath, size, Finite(0.0))];
      total := total + size;
    }
    assert rs[..|rs|] == rs;
  }

  /** The keys are exactly the names. */
  lemma {:induction false} ResourceMapKeys(fs: Node, rs: seq<Resource>)
    ensures ResourceMap(fs, rs).Keys == set j | 0 <= j < |rs| :: rs[j].name
  {
    if rs != [] {
      var init := rs[..|rs| - 1];
      ResourceMapKeys(fs, init);
      var names := set j | 0 <= j < |rs| :: rs[j].name;
      var initNames := set j | 0 <= j < |init| :: init[j].name;
      forall x | x in names
        ensures x in initNames + {rs[|rs| - 1].name}
      {
        var j :| 0 <= j < |rs| && rs[j].name == x;
        if j < |init| {
          assert init[j].name == x;
        }
      }
      forall x | x in initNames
        ensures x in names
      {
        var j :| 0 <= j < |init| && init[j].name == x;
        assert rs[j].name == x;
      }
      assert rs[|rs| - 1].name in names;
    }
  }

  /** With distinct names, every resource's entry is in the map. */
  lemma {:induction false} ResourceMapEntries(fs: Node, rs: seq<Resource>)
    requires DistinctResourceNames(rs)
    ensures forall j :: 0 <= j < |rs| ==>
      rs[j].name in ResourceMap(fs, rs) && ResourceMap(fs, rs)[rs[j].name] == Entry(fs, rs[j].dirPath)
  {
    if rs != [] {
      var init := rs[..|rs| - 1];
      assert DistinctResourceNames(init);
      ResourceMapEntries(fs, init);
      forall j | 0 <= j < |init|
        ensures init[j] == rs[j] && rs[j].name != rs[|rs| - 1].name
      {
      }
    }
  }

  /** With distinct names, the sizes stored add up to the total. */
  lemma {:induction false} ResourceMapSum(fs: Node, rs: seq<Resource>)
    requires DistinctResourceNames(rs)
    ensures Sum(ResourceMap(fs, rs), ResourceMap(fs, rs).Keys, SizeField) == ResourcesTotal(fs, rs) as real
  {
    if rs != [] {
      var init := rs[..|rs| - 1];
      var last := rs[|rs| - 1];
      assert DistinctResourceNames(init);
      ResourceMapSum(fs, init);
      ResourceMapKeys(fs, init);
      forall j | 0 <= j < |init|
        ensures init[j].name != last.name
      {
        assert rs[j].name != rs[|rs| - 1].name;
      }
      SumInsert(ResourceMap(fs, init), last.name, Entry(fs, last.dirPath), SizeField);
      assert ResourceMap(fs, rs).Keys == ResourceMap(fs, init).Keys + {last.name};
    }
  }

  /** When every path is `path + "/" + name`, every entry is the entry of
      `path + "/" + key`, whatever names repeat. */
  lemma {:induction false} ListedMapEntries(fs: Node, path: string, rs: seq<Resource>)
    requires forall j :: 0 <= j < |rs| ==> rs[j].dirPath == path + "/" + rs[j].name
    ensures forall k :: k in ResourceMap(fs, rs) ==> ResourceMap(fs, rs)[k] == Entry(fs, path + "/" + k)
  {
    if rs != [] {
      ListedMapEntries(fs, path, rs[..|rs| - 1]);
    }
  }

  // ---------------------------------------------------------------------
  // The estimate

  datatype EstimateReport = EstimateReport(m: DirMap, total: int)

  /** What the estimate reports: one entry per resource with its walk size
      (a path that cannot be stat'ed is only logged, and its entry is added
      all the same), "staticPods" less the bin subtree folded into
      "cluster", and percentages of the total of all five sizes.  That total
      is taken before the merge, so the percentages fall short of 100 by the
      bin subtree's share. */
  ghost predicate EstimateSpec(fs: Node, r: EstimateReport) {
    && r.m.Keys == EstimateKeys
    && r.total == ResourcesTotal(fs, Resources)
    && r.m[ClusterKey].dirPath == Resources[0].dirPath
    && r.m[ClusterKey].size ==
         DirSizeOf(fs, Resources[0].dirPath) + DirSizeOf(fs, Resources[1].dirPath) - DirSizeOf(fs, BinPath)
    && (forall j :: 2 <= j < |Resources| ==>
          && Resources[j].name in r.m
          && r.m[Resources[j].name].dirPath == Resources[j].dirPath
          && r.m[Resources[j].name].size == DirSizeOf(fs, Resources[j].dirPath))
    && PercentagesOf(r.m, r.total)
    && (r.total > 0 ==>
          Sum(r.m, r.m.Keys, PercentField) == 100.0 - Share(DirSizeOf(fs, BinPath), r.total))
    && (r.total > 0 ==>
          (Sum(r.m, r.m.Keys, PercentField) == 100.0 <==> DirSizeOf(fs, BinPath) == 0))
  }

  /** The estimate: measure the resources, merge, then the percentages. */
  method Estimate(fs: Node) returns (r: EstimateReport)
    ensures EstimateSpec(fs, r)
  {
    var m, total := MeasureResources(fs, Resources);
    EstimateMeasured(fs);
    var merged := MergeAndDeleteField(m, fs, BinPath);
    assert merged.Merged?;
    var withShares := CalculatePercentage(merged.m, total);
    r := EstimateReport(withShares, total);
    if total > 0 {
      SharesAfterMerge(withShares, merged.m, total, DirSizeOf(fs, BinPath));
    }
  }

  /** What the loop of the estimate holds before the merge. */
  lemma EstimateMeasured(fs: Node)
    ensures
      var m := ResourceMap(fs, Resources);
      && StaticPodsKey in m && ClusterKey in m
      && m.Keys - {StaticPodsKey} == EstimateKeys
      && m[ClusterKey] == Entry(fs, Resources[0].dirPath)
      && m[StaticPodsKey] == Entry(fs, Resources[1].dirPath)
      && (forall j :: 2 <= j < |Resources| ==>
            && Resources[j].name in EstimateKeys && Resources[j].name != ClusterKey
            && m[Resources[j].name] == Entry(fs, Resources[j].dirPath))
      && Sum(m, m.Keys, SizeField) == ResourcesTotal(fs, Resources) as real
  {
    ResourceNames();
    MeasuredWithMergeKeys(fs, Resources);
  }

  /** The same for any list of distinct names that starts with "cluster"
      and "staticPods" and otherwise names the estimate's keys. */
  lemma MeasuredWithMergeKeys(fs: Node, rs: seq<Resource>)
    requires DistinctResourceNames(rs) && |rs| >= 2
    requires rs[0].name == ClusterKey && rs[1].name == StaticPodsKey
    requires (set j | 0 <= j < |rs| :: rs[j].name) == EstimateKeys + {StaticPodsKey}
    requires StaticPodsKey !in EstimateKeys
    requires forall j :: 2 <= j < |rs| ==> rs[j].name in EstimateKeys
    ensures
      var m := ResourceMap(fs, rs);
      && StaticPodsKey in m && ClusterKey in m
      && m.Keys - {StaticPodsKey} == EstimateKeys
      && m[ClusterKey] == Entry(fs, rs[0].dirPath)
      && m[StaticPodsKey] == Entry(fs, rs[1].dirPath)
      && (forall j :: 2 <= j < |rs| ==>
            && rs[j].name in EstimateKeys && rs[j].name != ClusterKey
            && m[rs[j].name] == Entry(fs, rs[j].dirPath))
      && Sum(m, m.Keys, SizeField) == ResourcesTotal(fs, rs) as real
  {
    ResourceMapKeys(fs, rs);
    ResourceMapEntries(fs, rs);
    ResourceMapSum(fs, rs);
  }

  /** The names of the resources: distinct, and "staticPods" aside, the
      keys of the estimate. */
  lemma ResourceNames()
    ensures DistinctResourceNames(Resources)
    ensures Resources[0].name == ClusterKey && Resources[1].name == StaticPodsKey
    ensures (set j | 0 <= j < |Resources| :: Resources[j].name) == EstimateKeys + {StaticPodsKey}
    ensures StaticPodsKey !in EstimateKeys
    ensures forall j :: 2 <= j < |Resources| ==> Resources[j].name in EstimateKeys
  {
    var names := set j | 0 <= j < |Resources| :: Resources[j].name;
    assert Resources[0].name in names && Resources[1].name in names && Resources[2].name in names;
    assert Resources[3].name in names && Resources[4].name in names;
  }

  /** Percentages taken of `total` over a map whose sizes add up to
      `total - bin` fall short of 100 by the share of `bin`. */
  lemma SharesAfterMerge(shares: DirMap, merged: DirMap, total: int, bin: int)
    requires total > 0 && shares.Keys == merged.Keys && PercentagesOf(shares, total)
    requires forall k :: k in shares ==> shares[k].size == merged[k].size
    requires Sum(merged, merged.Keys, SizeField) == (total as real) - (bin as real)
    ensures Sum(shares, shares.Keys, PercentField) == 100.0 - Share(bin, total)
    ensures Sum(shares, shares.Keys, PercentField) == 100.0 <==> bin == 0
  {
    SumAgree(shares, merged, shares.Keys, SizeField);
    SumOfPercentages(shares, shares.Keys, total);
    ShortfallOfShares(Sum(shares, shares.Keys, PercentField),
                      Sum(shares, shares.Keys, SizeField), total, bin);
  }

  lemma ShortfallOfShares(shares: real, sizes: real, total: int, bin: int)
    requires total > 0 && sizes == (total - bin) as real
    requires shares == sizes * 100.0 / (total as real)
    ensures shares == 100.0 - Share(bin, total)
    ensures shares == 100.0 <==> bin == 0
  {
    Distribute((total - bin) as real, bin as real, total as real);
    WholeShare(total as real);
  }

  // ---------------------------------------------------------------------
  // Actual mode

  /** What listing a directory yields: its entries, or the error of
      `os.Open` / `ReadDir`. */
  function ListDir(n: Node): Result<seq<Node>, FsError> {
    match n
    case File(_, _) => Failure(OtherError)
    case Unstattable(_, e) => Failure(e)
    case Dir(_, _, readErr, cs) => if readErr.Some? then Failure(readErr.value) else Success(cs)
  }

  /** The named paths `makeActualDirMap` measures: each listed entry's name
      with the path `path + "/" + name`. */
  function Listed(path: string, files: seq<Node>): seq<Resource> {
    seq(|files|, j requires 0 <= j < |files| => Resource(files[j].name, path + "/" + files[j].name))
  }

  datatype ActualOutcome = ListFailed(err: FsError) | ActualReport(m: DirMap, total: int)

  /** What `makeActualDirMap` reports: the error of a listing that fails;
      otherwise one entry per listed entry of `path`, keyed by its name,
      with path `path + "/" + name` and that path's walk size, the total of
      those sizes, and the percentages.  In a directory whose names are
      distinct each entry weighs what its subtree does, the total is the
      walk size of `path` itself and the percentages add up to 100 whenever
      it is positive. */
  ghost predicate ActualSpec(fs: Node, path: string, r: ActualOutcome) {
    && (r.ListFailed? <==> ListDir(Lookup(fs, path)).Failure?)
    && (r.ListFailed? ==> r.err == ListDir(Lookup(fs, path)).error)
    && (r.ActualReport? ==>
          var cs := ListDir(Lookup(fs, path)).value;
          && r.m.Keys == (set j | 0 <= j < |cs| :: cs[j].name)
          && (forall k :: k in r.m ==>
                r.m[k].dirPath == path + "/" + k && r.m[k].size == DirSizeOf(fs, path + "/" + k))
          && PercentagesOf(r.m, r.total)
          && r.total == ResourcesTotal(fs, Listed(path, cs)))
    && (r.ActualReport? && DistinctNames(Lookup(fs, path).children) ==>
          && (forall c :: c in Lookup(fs, path).children ==> r.m[c.name].size == TreeSize(c))
          && r.total == DirSizeOf(fs, path)
          && (r.total > 0 ==> Sum(r.m, r.m.Keys, PercentField) == 100.0))
  }

  /** `makeActualDirMap`: list `path`, measure each entry, then the
      percentages.  A listing failure is returned (and only logged). */
  method MakeActualDirMap(fs: Node, path: string) returns (r: ActualOutcome)
    ensures ActualSpec(fs, path, r)
  {
    var listing := ListDir(Lookup(fs, path));
    if listing.Failure? {
      return ListFailed(listing.error);
    }
    var files := listing.value;
    var m, total := MeasureResources(fs, Listed(path, files));
    ActualMeasured(fs, path, files);
    var withShares := CalculatePercentage(m, total);
    r := ActualReport(withShares, total);
    if DistinctNames(files) {
      forall c | c in files
        ensures withShares[c.name].size == TreeSize(c)
      {
        ChildLookup(fs, path, c);
      }
      ListedTotalIsWalkSize(fs, path, files);
    }
  }

  /** What the loop of `makeActualDirMap` holds for the entries of `path`. */
  lemma ActualMeasured(fs: Node, path: string, files: seq<Node>)
    ensures
      var m := ResourceMap(fs, Listed(path, files));
      && m.Keys == (set j | 0 <= j < |files| :: files[j].name)
      && (forall k :: k in m ==> m[k] == Entry(fs, path + "/" + k))
      && (DistinctNames(files) ==>
            Sum(m, m.Keys, SizeField) == ResourcesTotal(fs, Listed(path, files)) as real)
  {
    var rs := Listed(path, files);
    ResourceMapKeys(fs, rs);
    ListedNames(path, files);
    ListedMapEntries(fs, path, rs);
    if DistinctNames(files) {
      assert DistinctResourceNames(rs);
      ResourceMapSum(fs, rs);
    }
  }

  lemma ListedNames(path: string, files: seq<Node>)
    ensures (set j | 0 <= j < |Listed(path, files)| :: Listed(path, files)[j].name) ==
      (set j | 0 <= j < |files| :: files[j].name)
  {
    var rs := Listed(path, files);
    var names := set j | 0 <= j < |files| :: files[j].name;
    forall x | x in names
      ensures x in (set j | 0 <= j < |rs| :: rs[j].name)
    {
      var j :| 0 <= j < |files| && files[j].name == x;
      assert rs[j].name == x;
    }
  }

  /** Summing the listed entries one by one gives the walk size of the
      directory they are listed in. */
  lemma {:induction false} ListedTotalIsWalkSize(fs: Node, path: string, cs: seq<Node>)
    requires Lookup(fs, path).Dir? && DistinctNames(Lookup(fs, path).children)
    requires forall c :: c in cs ==> c in Lookup(fs, path).children
    ensures ResourcesTotal(fs, Listed(path, cs)) == ForestSize(cs)
    decreases cs
  {
    if cs != [] {
      var init := cs[..|cs| - 1];
      assert Listed(path, cs)[..|cs| - 1] == Listed(path, init);
      ListedTotalIsWalkSize(fs, path, init);
      ChildLookup(fs, path, cs[|cs| - 1]);
    }
  }

  // ---------------------------------------------------------------------
  // main

  /** What `main` ends with: the estimate (always computed), the actual
      report when asked for, and the exit code. */
  datatype RunOutcome = RunOutcome(estimate: EstimateReport, actual: Option<ActualOutcome>, exitCode: int)

  /** `main`: the estimate always runs first; then an argument other than
      "actual" exits with code 1, "actual" reports the recovery directory
      (a listing failure is only logged), and no argument ends normally. */
  method Run(fs: Node, args: seq<string>) returns (r: RunOutcome)
    ensures EstimateSpec(fs, r.estimate)
    ensures r.exitCode == 0 || r.exitCode == 1
    ensures r.exitCode == 1 <==> |args| > 1 && args[1] != ActualMode
    ensures r.actual.Some? <==> |args| > 1 && args[1] == ActualMode
    ensures r.actual.Some? ==> ActualSpec(fs, RecoveryPath, r.actual.value)
  {
    var estimate := Estimate(fs);
    if |args| > 1 {
      if args[1] != ActualMode {
        return RunOutcome(estimate, None, 1);
      } else {
        var actual := MakeActualDirMap(fs, RecoveryPath);
        return RunOutcome(estimate, Some(actual), 0);
      }
    }
    return RunOutcome(estimate, None, 0);
  }

  // ---------------------------------------------------------------------
  // The merge against the filesystem

  lemma BinPathComponents()
    ensures Components(BinPath) == Components(Resources[1].dirPath) + ["bin"]
  {
    var q := "/etc/kubernetes/static-pod-resources";
    assert Resources[1].dirPath == q + "/";
    assert BinPath == (q + "/" + "bin") + "/";
    TrailingSlashComponents(q);
    TrailingSlashComponents(q + "/" + "bin");
    ComponentsAppend(q, "bin");
  }

  /** While the static-pod directory can be read down to "bin", the bin
      subtree weighs no more than the static-pod tree, so the share the
      merge moves to "cluster" is never negative. */
  lemma StaticPodsShareNonNegative(fs: Node)
    requires ReadableAlong(Lookup(fs, Resources[1].dirPath), ["bin"])
    ensures DirSizeOf(fs, BinPath) <= DirSizeOf(fs, Resources[1].dirPath)
  {
    var sp := Resources[1].dirPath;
    var n := Resolve(fs, Components(sp));
    BinPathComponents();
    ResolveAppend(fs, Components(sp), "bin");
    if !n.File? {
      assert Lookup(fs, sp) == n;
      SubtreeBounded(n, ["bin"]);
    }
  }
}
