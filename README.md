# Backup size estimator: the aggregation core

`main.go` is a command-line tool that estimates how much disk space a
cluster node's backup will need. It works in two steps:

1. **Estimate.** It walks a fixed list of paths: the etcd database, the
   static-pod resources, `/usr/local`, the kubelet directory and `/etc`.
   It adds up the file sizes below each path. It then folds the
   static-pod total, minus its `bin` subtree, into the "cluster" entry,
   and gives each entry a percentage of the total.
2. **Actual** (optional, on the argument `actual`). It does the same for
   every entry of `/var/recovery`.

This project models that core in Dafny:

- The filesystem is a value (`FileTree.Node`). An entry is a
  non-directory with its size, a directory with the outcome of reading
  it, or an entry whose `Lstat` fails.
- The walk is proved to return the sum of the sizes of the non-directory
  entries it can reach. This covers `dirSize` and the behaviour of
  `filepath.Walk` it depends on.
- `sizeConversion`, `calculatePercentage` and `mergeAndDeleteField` are
  modelled as methods with loops and map updates, proved against
  specification functions.
- The estimate, actual mode and the argument dispatch of `main` are
  proved to produce the maps, totals and percentage sums stated below.

Modules, in dependency order:

- `Wrappers` (Option, Result).
- `FileTree`: entries, paths, `Lookup`, `TreeSize`, and the lemmas about
  them.
- `SizeWalker`: the walk callback as class `WalkState`, the walk itself,
  and `dirSize`.
- `UnitLadder`: `sizeConversion`.
- `DirectorySet`: the `directory` map, sums over it, and the two passes.
- `Report`: the estimate, actual mode and `main`.

Quirks of the source that the contracts make explicit:

- **The exclusion never matches.** The walk compares a base name with
  "/etc/kubernetes/static-pod-resources/bin". A base name contains no
  '/', so every reachable non-directory is counted (`WalkState.Visit`).
- **The walk never fails.** Every error makes the callback return
  `SkipDir`, so `filepath.Walk` never returns an error. The branch that
  resets the size to 0 is dead (`Walk`, `DirSize`).
- **The unit index can run off the label list.** It reaches 7 = `len(units)`
  for sizes of at least 1024^7, and there `units[i]` panics. The labels
  also skip PiB: index 5 is labelled "EiB" (`SizeConversion`).
- **The estimate's percentages do not add up to 100.** `total` is
  summed before the merge, which removes the `bin` subtree's size. So
  the percentages fall short of 100 by exactly that subtree's share
  (`Estimate`).

## Model

| member | source | states |
|---|---|---|
| SizeWalker.WalkState.Visit | main.go:42-56 | On an error, returns SkipDir, leaves the size alone, and records the path exactly when the error is a permission error. Otherwise adds the size of every non-directory, because the base-name exclusion can never match, and adds nothing for a directory. |
| SizeWalker.WalkNode | main.go:42-56 | Walking an entry whose Lstat succeeds adds its subtree's `TreeSize` and appends its `Denied` paths in walk order. The walk returns SkipDir exactly for an unreadable directory and nothing otherwise: a failing entry is skipped and its siblings are still walked. |
| SizeWalker.Walk | main.go:42-56 | From any root, including one whose Lstat fails, the size grows by `TreeSize` of the root and the walk never ends in an error. |
| SizeWalker.DirSize | main.go:38-67 | `dirSize(path)` is the `TreeSize` of the entry at `path`. It is 0 when that entry cannot be stat'ed or read. The printed paths are those denied by permission, and there are none when no entry has a permission error. |
| FileTree.SkippedEntryKeepsSiblings | main.go:43-48 | Replacing one entry of a directory by one that cannot be stat'ed or read lowers the total by exactly that entry's subtree: every sibling still counts. |
| FileTree.VisibleFileBounded | main.go:49-53 | Every non-directory the walk reaches counts in full: its size is at most the total. |
| FileTree.NoPermissionErrorsNoDenied | main.go:43-47 | A tree without permission errors records no path, whatever other errors it has. |
| FileTree.NoPermissionErrorsNoDeniedForest | main.go:43-47 | The same for the entries of a directory. |
| FileTree.ForestSizeAppend | main.go:42-56 | The total over two runs of entries is the sum of their totals. |
| FileTree.ForestStep | main.go:42-56 | Walking one more entry adds its subtree's size and its denied paths. |
| FileTree.ForestSizeSplit | main.go:42-56 | The total over a directory's entries splits around any one entry. |
| FileTree.ChildBounded | main.go:42-56 | A listed entry's subtree weighs no more than its directory's. |
| FileTree.SubtreeBounded | main.go:125-136 | Below entries that can all be read, what a path names weighs no more than where it starts. |
| FileTree.FindChild | main.go:42-56 | The entry found has the name asked for and no earlier entry has it; when none is found, no entry has that name. |
| FileTree.FindDistinct | main.go:88-90 | Among distinct names, looking up an entry's name finds that very entry. |
| FileTree.BaseStart | main.go:42-56 | The last path element starts after the last '/' and contains none. |
| FileTree.BaseStartAfterSlash | main.go:89-90 | A path ending in '/' followed by a slash-free name has its last element start at the name. |
| FileTree.ComponentsAppend | main.go:89-90 | `path + "/" + name` has the elements of `path` followed by `name`. |
| FileTree.TrailingSlashComponents | main.go:191 | A trailing '/' does not change a path's elements. |
| FileTree.ResolveAppend | main.go:89-90 | Resolving one more element starts from the entry the shorter path names. |
| FileTree.ChildLookup | main.go:88-90 | In a readable directory whose entries have distinct names, `path + "/" + name` resolves to exactly the entry listed under that name. |
| UnitLadder.SizeConversion | main.go:103-115 | The index reached is at most 7 and the value times 1024^index is the size. Every step taken had `size >= 1024^j`, and below index 7 the size is under 1024^(index+1): the index is the least one. A label exists exactly when `size < 1024^7`, and it is `Units[index]`, which has no PiB. Otherwise `units[i]` is out of range. |
| UnitLadder.ShrunkScales | main.go:108-111 | After `i` divisions, the value times 1024^i is the original size. |
| UnitLadder.LadderStep | main.go:108-110 | Dividing once more means the size is at least 1024^(i+1). |
| UnitLadder.LadderStop | main.go:108-114 | Stopping below 1024 before the end of the labels places the size below 1024^(i+1) and below 1024^7. |
| UnitLadder.PowMonotone | main.go:104-108 | Powers of 1024 grow with the exponent. |
| DirectorySet.CalculatePercentage | main.go:117-123 | Keys, paths and sizes are unchanged and every percentage is `DirectorySet.Percent(size, total)`, that is `size*100/total`. Division by zero gives an infinity or NaN, as in float64. When the sizes add up to a positive total, the percentages add up to 100. |
| DirectorySet.SumRemove | main.go:117-123 | A sum over entries can take any one entry out first. |
| DirectorySet.SumAgree | main.go:117-123 | Maps that agree on a field have the same sum of it. |
| DirectorySet.SumInsert | main.go:93 | Storing a new key adds its value to the sum. |
| DirectorySet.SumOfPercentages | main.go:117-123 | The percentages add up to the sum of the sizes times 100 over the total. |
| DirectorySet.PercentagesSumTo100 | main.go:117-123 | When the total is the positive sum of the sizes, the percentages add up to 100. |
| DirectorySet.MergeAndDeleteField | main.go:125-142 | When "staticPods" or "cluster" is missing, the result is a nil dereference. Otherwise "staticPods" is gone and "cluster" keeps its path. Its size becomes cluster + staticPods − dirSize(bin). Every other key is untouched, and the sizes add up to their old sum less dirSize(bin). |
| DirectorySet.MergeSum | main.go:129-139 | The merged map's sizes add up to the old sum less the bin size. |
| Report.MeasureResources | main.go:87-214 | Both measuring loops: the estimate's over its five resources (lines 200-214) and actual mode's over the listed entries (lines 87-94). The loop builds the map of each name to its path's record (the path, its walk size and a zero percentage), with a later name replacing an earlier one, and the total of all the walk sizes. |
| Report.ResourceMapKeys | main.go:207 | The map's keys are exactly the resource names. |
| Report.ResourceMapEntries | main.go:207-211 | With distinct names, every resource's record is in the map. |
| Report.ResourceMapSum | main.go:207-212 | With distinct names, the stored sizes add up to the loop's total. |
| Report.ListedMapEntries | main.go:88-90 | When every path is `path + "/" + name`, each key holds the record of `path + "/" + key`. |
| Report.Estimate | main.go:198-219 | `EstimateSpec` holds of the report. The keys are "cluster", "usrLocal", "kubelet" and "etc", even for paths whose Lstat fails. The total is that of all five paths, taken before the merge. "cluster" keeps its path and holds db + staticPods − bin. The other entries hold their own walk sizes. Every percentage is taken against the pre-merge total. When that total is positive, the percentages add up to 100 minus the bin share, which is 100 exactly when the bin subtree is empty. |
| Report.EstimateMeasured | main.go:188-214 | Before the merge, the estimate map holds both merged keys and the other three. Each key holds its path's record, and the sizes add up to the total. |
| Report.MeasuredWithMergeKeys | main.go:198-214 | The same for any list of distinct names that starts with "cluster" and "staticPods". |
| Report.ResourceNames | main.go:188-196 | The five resource names are distinct, "staticPods" is second, and the rest are the estimate's keys. |
| Report.SharesAfterMerge | main.go:212-219 | Percentages of the pre-merge total over sizes that add up to total − bin add up to 100 − bin's share. That is 100 exactly when bin is 0. |
| Report.ShortfallOfShares | main.go:216-219 | The same statement on the two sums. |
| Report.MakeActualDirMap | main.go:69-101 | `ActualSpec` holds of the outcome. It fails exactly when `os.Open` or `ReadDir` fails, with that error. Otherwise there is one key per listed name, with path `path + "/" + name` and that path's walk size. Percentages are taken of the total of those sizes. With distinct names, each entry weighs its subtree, the total is `dirSize(path)`, and a positive total splits into percentages that add up to 100. |
| Report.ActualMeasured | main.go:87-94 | Before the percentages, the keys are the listed names, each holding the record of `path + "/" + key`. With distinct names, the sizes add up to the total. |
| Report.ListedNames | main.go:88 | The measured names are the listed names. |
| Report.ListedTotalIsWalkSize | main.go:87-94 | Summing the listed entries one by one gives the walk size of the directory they are listed in. |
| Report.Run | main.go:244-258 | The estimate always runs first. The exit code is 1 exactly when a first argument other than "actual" is given, and 0 otherwise, as long as the printing and partition code left out of the model return normally. The estimate it carries meets `EstimateSpec`: all of `Report.Estimate`'s contract, keys, sizes, paths and percentages included. An actual report exists exactly for "actual", and it meets `ActualSpec` for `/var/recovery`: all of `Report.MakeActualDirMap`'s contract, failure, keys, sizes, paths, total and percentages included. |
| Report.BinPathComponents | main.go:216 | The bin path names the "bin" entry of the static-pod directory. |
| Report.StaticPodsShareNonNegative | main.go:125-136 | While the static-pod directory can be read down to "bin", the bin subtree weighs no more than the static-pod tree, so the share merged into "cluster" is not negative. |

## Left out

- Printing and rendering are not modelled: `printHeadEstimate`, `printHeadActual`, `diskPartitionInfo`, `print`, the tabwriter and the colours. This includes the `%.02f` and `%.2f%%` formatting, and the message listing permission-denied paths; `DirSize` returns those paths instead of printing them.
- The partition and disk-usage report (main.go:223-242) is a gopsutil call that feeds nothing into the aggregation.
- Logging is not modelled: the `Lstat` check of each estimate path, which only logs, and the log of a failed listing. The failed listing is returned as `ListFailed`.
- `os.Exit(1)` is modelled as the exit code of `RunOutcome`, and the command-line arguments are a parameter.
- `Report.Run`: assumes the printing and the partition report, both left out, return normally. Two panics there are not modelled; each ends the process with exit code 2. In the estimate, both come before the dispatch, so there is then no dispatch and no actual report.
  - `sizeConversion` panics in `print` (main.go:221, and main.go:98 in actual mode) on any size or total of at least 1024^7.
  - `disk.Usage` failing leaves `dUsage` nil, and main.go:239 dereferences it.
- The filesystem is a value passed in. `filepath.Walk`, `os.Lstat`, `os.Open` and `ReadDir` are modelled by `Lookup`, `ListDir` and the walk methods.
  - Entries are in the order the walk visits them. `filepath.Walk`'s sorting by name is not modelled; it changes only the order of the denied paths, not the size.
  - `FileTree.JoinPath` stands for `filepath.Join` when the walk names a child. It handles the two forms of directory path the walk meets, with and without a trailing '/', and does no other cleaning.
  - Symbolic links are non-directories with their own size, as `Lstat` and `filepath.Walk` see the last element of a path. Calls that follow a link are not modelled that way:
    - `FileTree.Lookup`, for every element but the last: the operating system follows a link in the middle of a path, for `Lstat` and `os.Open` alike. The model treats such a link as a non-directory, so the path fails with ENOTDIR and measures 0. If `/var/lib/etcd` were a link to a directory, for instance, the source would measure the etcd database (main.go:202, 209) and the model measures 0. This holds for every lookup the model makes: the five estimate paths, the bin path, `/var/recovery` and each `path + "/" + name` of actual mode.
    - `Report.ListDir`: `os.Open` (main.go:74) follows a link, so a `/var/recovery` that is a link to a directory is listed by the source. The model reports `ListFailed(OtherError)` instead.
    - `FileTree.Lookup`: `Lstat` of a path with a trailing '/' follows a final link on Linux. This concerns the static-pod path (main.go:191) and the bin path (main.go:216). The model treats a link there as a non-directory, which fails with ENOTDIR and measures 0.
  - `FileTree.Lookup` resolves every path from the root. The empty path therefore names the root, where `Lstat("")` and `os.Open("")` fail with ENOENT. Relative paths are not modelled. No call in the source passes either kind.
  - `FileTree.Lookup`: a name that is missing below a directory without search permission fails as `OtherError`. The operating system reports EACCES there, which the walk would record as denied. No call in the source passes such a path.
  - Read and search permission are modelled separately. A directory's `readErr` blocks only the listing of its entries: `Lookup` still resolves paths through it. Missing search permission shows as the `statErr` of the entries below it, for entries that exist.
  - `.` and `..` elements and other cleaning done by `filepath.Clean` are not modelled.
- `SizeWalker.DirSize`, `Report.Estimate`, `Report.MakeActualDirMap`: sizes are exact integers and percentages exact reals. float64 rounding, and the loss of precision above 2^53 bytes, are not modelled.
- `UnitLadder.SizeConversion`: returns the index and the scaled value, not the formatted string. The panic at index 7 is the `IndexOutOfRange` outcome.
- `DirectorySet.CalculatePercentage`, `DirectorySet.MergeAndDeleteField`: the map of pointers is a map of values. Pointer aliasing between entries cannot arise in the source's use and is not modelled, and map iteration order is abstracted by picking keys in any order.
- `Report.MakeActualDirMap`: when a listing repeats a name, which a real directory does not, a later entry replaces an earlier one, and the total still counts both. Its contract then states the keys, paths, sizes and total but not a percentage sum.
- `Report.StaticPodsShareNonNegative`: needs the static-pod directory to be readable down to "bin". When it is not, the bin subtree can still be measured on its own and the merged "cluster" size can drop below the cluster's own size.
