/** The map from resource name to `directory` (main.go:26-30) and the two
    passes over it: `calculatePercentage` (main.go:117-123) and
    `mergeAndDeleteField` (main.go:125-142). */
module DirectorySet {
  import opened FileTree
  import opened SizeWalker

  /** A float64 quotient: finite, or what IEEE division by zero gives. */
  datatype Ratio = Finite(value: real) | NaN | PlusInfinity | MinusInfinity

  /** One `directory` record.  `size` is a float64 in Go and may go below
      zero after the merge, hence `int`. */
  datatype Directory = Directory(dirPath: string, size: int, percentage: Ratio)

  type DirMap = map<string, Directory>

  const StaticPodsKey: string := "staticPods"
  const ClusterKey: string := "cluster"

  /** `part` as a percentage of a non-zero `whole`. */
  function Share(part: int, whole: int): real
    requires whole != 0
  {
    (part as real) * 100.0 / (whole as real)
  }

  /** `size * 100 / total` in float64: division by zero gives an infinity
      of the numerator's sign, or NaN for 0/0. */
  function Percent(size: int, total: int): Ratio {
    if total != 0 then Finite(Share(size, total))
    else if size > 0 then PlusInfinity
    else if size < 0 then MinusInfinity
    else NaN
  }

  /** Every entry's percentage is its share of `total`. */
  ghost predicate PercentagesOf(m: DirMap, total: int) {
    forall k :: k in m ==> m[k].percentage == Percent(m[k].size, total)
  }

  // ---------------------------------------------------------------------
  // Sums over the entries of a map

  datatype Field = SizeField | PercentField

  function FieldValue(d: Directory, f: Field): real {
    match f
    case SizeField => d.size as real
    case PercentField => if d.percentage.Finite? then d.percentage.value else 0.0
  }

  /** The sum of field `f` over the entries of `m` named in `keys`. */
  ghost function Sum(m: DirMap, keys: set<string>, f: Field): real
    requires keys <= m.Keys
    decreases keys
  {
    if keys == {} then 0.0
    else
      var k :| k in keys;
      FieldValue(m[k], f) + Sum(m, keys - {k}, f)
  }

  /** Any entry can be taken out of a sum first. */
  lemma {:induction false} SumRemove(m: DirMap, keys: set<string>, k: string, f: Field)
    requires keys <= m.Keys && k in keys
    ensures Sum(m, keys, f) == FieldValue(m[k], f) + Sum(m, keys - {k}, f)
    decreases keys
  {
    var x :| x in keys && Sum(m, keys, f) == FieldValue(m[x], f) + Sum(m, keys - {x}, f);
    if x != k {
      SumRemove(m, keys - {x}, k, f);
      SumRemove(m, keys - {k}, x, f);
      assert keys - {x} - {k} == keys - {k} - {x};
    }
  }

  /** Two maps that agree on `keys` have the same sum over them. */
  lemma {:induction false} SumAgree(m1: DirMap, m2: DirMap, keys: set<string>, f: Field)
    requires keys <= m1.Keys && keys <= m2.Keys
    requires forall k :: k in keys ==> FieldValue(m1[k], f) == FieldValue(m2[k], f)
    ensures Sum(m1, keys, f) == Sum(m2, keys, f)
    decreases keys
  {
    if keys != {} {
      var k :| k in keys;
      SumRemove(m1, keys, k, f);
      SumRemove(m2, keys, k, f);
      SumAgree(m1, m2, keys - {k}, f);
    }
  }

  /** Adding an entry under a new key adds its value to the sum. */
  lemma SumInsert(m: DirMap, k: string, d: Directory, f: Field)
    requires k !in m
    ensures Sum(m[k := d], m.Keys + {k}, f) == FieldValue(d, f) + Sum(m, m.Keys, f)
  {
    var m' := m[k := d];
    SumRemove(m', m.Keys + {k}, k, f);
    assert m.Keys + {k} - {k} == m.Keys;
    SumAgree(m', m, m.Keys, f);
  }

  /** The percentages add up to the sizes' share of `total`. */
  lemma {:induction false} SumOfPercentages(m: DirMap, keys: set<string>, total: int)
    requires keys <= m.Keys && total != 0 && PercentagesOf(m, total)
    ensures Sum(m, keys, PercentField) == Sum(m, keys, SizeField) * 100.0 / (total as real)
    decreases keys
  {
    if keys != {} {
      var k :| k in keys;
      SumRemove(m, keys, k, PercentField);
      SumRemove(m, keys, k, SizeField);
      SumOfPercentages(m, keys - {k}, total);
      Distribute(m[k].size as real, Sum(m, keys - {k}, SizeField), total as real);
    }
  }

  /** The nonlinear steps on reals are lemmas of their own, so that the
      solver meets them without the sums around them. */
  lemma Distribute(a: real, b: real, t: real)
    requires t != 0.0
    ensures a * 100.0 / t + b * 100.0 / t == (a + b) * 100.0 / t
  {
  }

  /** When `total` is the sum of the sizes and is positive, the
      percentages add up to 100. */
  lemma PercentagesSumTo100(m: DirMap, total: int)
    requires total > 0 && PercentagesOf(m, total)
    requires Sum(m, m.Keys, SizeField) == total as real
    ensures Sum(m, m.Keys, PercentField) == 100.0
  {
    SumOfPercentages(m, m.Keys, total);
    WholeShare(total as real);
  }

  /** Proved apart from the sums, like `Distribute`. */
  lemma WholeShare(t: real)
    requires t > 0.0
    ensures t * 100.0 / t == 100.0
  {
  }

  // ---------------------------------------------------------------------
  // The two passes

  /** `calculatePercentage`: set every entry's percentage to
      `size * 100 / total`, in whatever order the map yields its keys.
      Keys, paths and sizes stay as they were. */
  method CalculatePercentage(m: DirMap, total: int) returns (r: DirMap)
    ensures r.Keys == m.Keys
    ensures forall k :: k in r ==> r[k].dirPath == m[k].dirPath && r[k].size == m[k].size
    ensures PercentagesOf(r, total)
    ensures total > 0 && Sum(m, m.Keys, SizeField) == total as real ==>
      Sum(r, r.Keys, PercentField) == 100.0
  {
    r := m;
    var todo := m.Keys;
    while todo != {}
      invariant todo <= m.Keys && r.Keys == m.Keys
      invariant forall k :: k in r ==> r[k].dirPath == m[k].dirPath && r[k].size == m[k].size
      invariant forall k :: k in r && k !in todo ==> r[k].percentage == Percent(r[k].size, total)
      decreases todo
    {
      var key :| key in todo;
      var value := r[key];
      value := value.(percentage := Percent(value.size, total));
      r := r[key := value];
      todo := todo - {key};
    }
    if total > 0 && Sum(m, m.Keys, SizeField) == total as real {
      SumAgree(m, r, m.Keys, SizeField);
      PercentagesSumTo100(r, total);
    }
  }

  /** The outcome of `mergeAndDeleteField`: the updated map, or the nil
      dereference that a missing key causes. */
  datatype MergeOutcome = Merged(m: DirMap) | NilDereference

  /** `mergeAndDeleteField`: take the size of the subtree at `binPath` off
      "staticPods", add what is left to "cluster", and delete "staticPods".
      The new "cluster" keeps its path and gets a zero percentage; every
      other entry is untouched, so the sizes add up to what they did less
      the subtree's size. */
  method MergeAndDeleteField(m: DirMap, fs: Node, binPath: string) returns (r: MergeOutcome)
    ensures r.NilDereference? <==> StaticPodsKey !in m || ClusterKey !in m
    ensures r.Merged? ==>
      && r.m.Keys == m.Keys - {StaticPodsKey}
      && r.m[ClusterKey] == Directory(m[ClusterKey].dirPath,
                                      m[ClusterKey].size + m[StaticPodsKey].size - DirSizeOf(fs, binPath),
                                      Finite(0.0))
      && (forall k :: k in r.m && k != ClusterKey ==> r.m[k] == m[k])
      && Sum(r.m, r.m.Keys, SizeField) == Sum(m, m.Keys, SizeField) - DirSizeOf(fs, binPath) as real
  {
    var binPathSize, _ := DirSize(fs, binPath);
    if StaticPodsKey !in m {
      return NilDereference;
    }
    var out := m;
    out := out[StaticPodsKey := Directory(out[StaticPodsKey].dirPath, out[StaticPodsKey].size - binPathSize, Finite(0.0))];
    if ClusterKey !in out {
      return NilDereference;
    }
    out := out[ClusterKey := Directory(out[ClusterKey].dirPath, out[ClusterKey].size + out[StaticPodsKey].size, Finite(0.0))];
    out := out - {StaticPodsKey};
    MergeSum(m, out, binPathSize);
    return Merged(out);
  }

  lemma MergeSum(m: DirMap, m3: DirMap, bin: int)
    requires StaticPodsKey in m && ClusterKey in m
    requires m3.Keys == m.Keys - {StaticPodsKey} && ClusterKey in m3
    requires m3[ClusterKey].size == m[ClusterKey].size + m[StaticPodsKey].size - bin
    requires forall k :: k in m3 && k != ClusterKey ==> m3[k] == m[k]
    ensures Sum(m3, m3.Keys, SizeField) == Sum(m, m.Keys, SizeField) - bin as real
  {
    var rest := m.Keys - {StaticPodsKey} - {ClusterKey};
    SumRemove(m, m.Keys, StaticPodsKey, SizeField);
    SumRemove(m, m.Keys - {StaticPodsKey}, ClusterKey, SizeField);
    SumRemove(m3, m3.Keys, ClusterKey, SizeField);
    SumAgree(m3, m, rest, SizeField);
  }
}
