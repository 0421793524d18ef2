// The aggregation around k-means clustering: the clustered copy of a measures table, the score
// lists over a range of cluster counts, their ensemble means, and the per-cluster centroid table.
// The clustering itself (scikit-learn's KMeans and silhouette score) is an input: a labelling,
// or a function from cluster count (and ensemble run) to the two goodness-of-fit scores.
module Clustering {
  import opened Tables
  import Seqs
  import Text
  import Tests

  // ------------------------------------------------------------------------- k_means

  /** The two goodness-of-fit scores one k-means run reports. */
  datatype Fit = Fit(inertia: real, silhouette: real)

  /** k_means' clustered copy: the input with a "cluster" column holding each row's label. */
  function Clustered(t: Table, labels: seq<int>): (r: Table)
    requires Valid(t) && |labels| == |t.rows|
    ensures Valid(r) && |r.rows| == |t.rows|
    ensures forall k :: 0 <= k < |r.rows| ==> r.rows[k].key == t.rows[k].key
    ensures r.names == if "cluster" in t.names then t.names else t.names + ["cluster"]
    ensures forall k :: 0 <= k < |t.rows| ==> Column(r, "cluster")[k] == Num(labels[k] as real)
    ensures forall c :: c in t.names && c != "cluster" ==> Column(r, c) == Column(t, c)
  {
    AddColumn(t, "cluster", seq(|labels|, k requires 0 <= k < |labels| => Num(labels[k] as real)))
  }

  // ------------------------------------------------------------------- k_means_range

  /** How many cluster counts range(lo, hi + 1) visits. */
  function RangeLength(lo: int, hi: int): (n: nat)
    ensures n == 0 <==> hi < lo
    ensures lo <= hi ==> lo + n == hi + 1
  {
    if hi < lo then 0 else hi - lo + 1
  }

  /** One score pair per cluster count from minClusters to maxClusters inclusive, in ascending order. */
  method KMeansRange(minClusters: int, maxClusters: int, fit: int -> Fit)
    returns (inertias: seq<real>, silhouettes: seq<real>)
    ensures |inertias| == RangeLength(minClusters, maxClusters)
    ensures |silhouettes| == RangeLength(minClusters, maxClusters)
    ensures forall k :: 0 <= k < |inertias| ==> inertias[k] == fit(minClusters + k).inertia
    ensures forall k :: 0 <= k < |silhouettes| ==> silhouettes[k] == fit(minClusters + k).silhouette
  {
    inertias, silhouettes := [], [];
    var x := minClusters;
    while x < maxClusters + 1
      invariant minClusters <= x && (x == minClusters || x <= maxClusters + 1)
      invariant |inertias| == |silhouettes| == x - minClusters
      invariant forall k :: 0 <= k < |inertias| ==> inertias[k] == fit(minClusters + k).inertia
      invariant forall k :: 0 <= k < |silhouettes| ==> silhouettes[k] == fit(minClusters + k).silhouette
    {
      var result := fit(x);
      inertias := inertias + [result.inertia];
      silhouettes := silhouettes + [result.silhouette];
      x := x + 1;
    }
  }

  // ---------------------------------------------------------------- k_means_ensemble

  /** What each of the `size` ensemble runs reports for one cluster count. */
  function RunFits(fit: (nat, int) -> Fit, size: nat, count: int): (fits: seq<Fit>)
    ensures |fits| == size
    ensures forall x :: 0 <= x < size ==> fits[x] == fit(x, count)
  {
    seq(size, x requires 0 <= x < size => fit(x, count))
  }

  function Inertias(fits: seq<Fit>): (s: seq<real>)
    ensures |s| == |fits|
    ensures forall x :: 0 <= x < |fits| ==> s[x] == fits[x].inertia
  {
    seq(|fits|, x requires 0 <= x < |fits| => fits[x].inertia)
  }

  function Silhouettes(fits: seq<Fit>): (s: seq<real>)
    ensures |s| == |fits|
    ensures forall x :: 0 <= x < |fits| ==> s[x] == fits[x].silhouette
  {
    seq(|fits|, x requires 0 <= x < |fits| => fits[x].silhouette)
  }

  /** Every run's list holds n scores, the run's report for each cluster count from lo on. */
  ghost predicate InertiaRuns(all: seq<seq<real>>, n: nat, lo: int, fit: (nat, int) -> Fit) {
    forall y :: 0 <= y < |all| ==> |all[y]| == n && forall c :: 0 <= c < n ==> all[y][c] == fit(y, lo + c).inertia
  }

  ghost predicate SilhouetteRuns(all: seq<seq<real>>, n: nat, lo: int, fit: (nat, int) -> Fit) {
    forall y :: 0 <= y < |all| ==> |all[y]| == n && forall c :: 0 <= c < n ==> all[y][c] == fit(y, lo + c).silhouette
  }

  /** Entry c of every run's list. */
  function Entry(all: seq<seq<real>>, c: nat): (s: seq<real>)
    requires forall y :: 0 <= y < |all| ==> c < |all[y]|
    ensures |s| == |all|
  {
    seq(|all|, y requires 0 <= y < |all| => all[y][c])
  }

  lemma InertiaEntry(all: seq<seq<real>>, n: nat, lo: int, fit: (nat, int) -> Fit, c: nat)
    requires InertiaRuns(all, n, lo, fit) && c < n
    ensures Entry(all, c) == Inertias(RunFits(fit, |all|, lo + c))
  {
  }

  lemma SilhouetteEntry(all: seq<seq<real>>, n: nat, lo: int, fit: (nat, int) -> Fit, c: nat)
    requires SilhouetteRuns(all, n, lo, fit) && c < n
    ensures Entry(all, c) == Silhouettes(RunFits(fit, |all|, lo + c))
  {
  }

  /** The first loop of k_means_ensemble: the range's score lists of each of `size` runs. */
  method EnsembleRuns(size: int, minClusters: int, maxClusters: int, fit: (nat, int) -> Fit)
    returns (allInertias: seq<seq<real>>, allSilhouettes: seq<seq<real>>)
    ensures |allInertias| == |allSilhouettes| == if size <= 0 then 0 else size
    ensures InertiaRuns(allInertias, RangeLength(minClusters, maxClusters), minClusters, fit)
    ensures SilhouetteRuns(allSilhouettes, RangeLength(minClusters, maxClusters), minClusters, fit)
  {
    var n := RangeLength(minClusters, maxClusters);
    allInertias, allSilhouettes := [], [];
    var x: nat := 0;
    while x < size
      invariant |allInertias| == |allSilhouettes| == x
      invariant x == 0 || x <= size
      invariant InertiaRuns(allInertias, n, minClusters, fit)
      invariant SilhouetteRuns(allSilhouettes, n, minClusters, fit)
    {
      var run := x;
      var inertias, silhouettes := KMeansRange(minClusters, maxClusters, count => fit(run, count));
      allInertias := allInertias + [inertias];
      allSilhouettes := allSilhouettes + [silhouettes];
      x := x + 1;
    }
  }

  /**
   * Runs the range `ensembleSize` times (run x reports fit(x, count)) and averages each entry
   * over the runs. With no runs, the first run's list is looked up and an IndexError is raised.
   */
  method KMeansEnsemble(ensembleSize: int, minClusters: int, maxClusters: int, fit: (nat, int) -> Fit)
    returns (r: Result<(seq<real>, seq<real>)>)
    ensures r.Fail? <==> ensembleSize <= 0
    ensures r.Fail? ==> r.error == IndexError
    ensures r.Ok? ==> |r.value.0| == RangeLength(minClusters, maxClusters)
    ensures r.Ok? ==> |r.value.1| == RangeLength(minClusters, maxClusters)
    ensures r.Ok? ==> forall c :: 0 <= c < |r.value.0| ==>
      r.value.0[c] == Seqs.Mean(Inertias(RunFits(fit, ensembleSize, minClusters + c)))
    ensures r.Ok? ==> forall c :: 0 <= c < |r.value.1| ==>
      r.value.1[c] == Seqs.Mean(Silhouettes(RunFits(fit, ensembleSize, minClusters + c)))
  {
    var n := RangeLength(minClusters, maxClusters);
    var allInertias, allSilhouettes := EnsembleRuns(ensembleSize, minClusters, maxClusters, fit);
    if allInertias == [] {
      return Fail(IndexError);
    }
    var ensembleInertias: seq<real> := [];
    var ensembleSilhouettes: seq<real> := [];
    var c := 0;
    while c < |allInertias[0]|
      invariant 0 <= c <= n
      invariant |ensembleInertias| == |ensembleSilhouettes| == c
      invariant forall d :: 0 <= d < c ==>
        ensembleInertias[d] == Seqs.Mean(Inertias(RunFits(fit, ensembleSize, minClusters + d)))
      invariant forall d :: 0 <= d < c ==>
        ensembleSilhouettes[d] == Seqs.Mean(Silhouettes(RunFits(fit, ensembleSize, minClusters + d)))
    {
      InertiaEntry(allInertias, n, minClusters, fit, c);
      SilhouetteEntry(allSilhouettes, n, minClusters, fit, c);
      ensembleInertias := ensembleInertias + [Seqs.Mean(Entry(allInertias, c))];
      ensembleSilhouettes := ensembleSilhouettes + [Seqs.Mean(Entry(allSilhouettes, c))];
      c := c + 1;
    }
    r := Ok((ensembleInertias, ensembleSilhouettes));
  }

  /** An ensemble mean lies between the smallest and the largest score the runs report. */
  lemma EnsembleWithinRuns(fit: (nat, int) -> Fit, size: nat, count: int, lo: real, hi: real)
    requires size > 0
    requires forall x: nat :: x < size ==> lo <= fit(x, count).inertia <= hi
    ensures lo <= Seqs.Mean(Inertias(RunFits(fit, size, count))) <= hi
  {
    var scores := Inertias(RunFits(fit, size, count));
    forall x | 0 <= x < |scores|
      ensures lo <= scores[x] <= hi
    {
      assert scores[x] == fit(x, count).inertia;
    }
    Seqs.MeanBounds(scores, lo, hi);
  }

  /** When every run reports the same scores, the ensemble reports them unchanged. */
  lemma EnsembleOfEqualRuns(fit: (nat, int) -> Fit, size: nat, count: int)
    requires size > 0
    requires forall x: nat :: x < size ==> fit(x, count) == fit(0, count)
    ensures Seqs.Mean(Inertias(RunFits(fit, size, count))) == fit(0, count).inertia
    ensures Seqs.Mean(Silhouettes(RunFits(fit, size, count))) == fit(0, count).silhouette
  {
    var f := fit(0, count);
    var inertias := Inertias(RunFits(fit, size, count));
    var silhouettes := Silhouettes(RunFits(fit, size, count));
    forall x | 0 <= x < size
      ensures inertias[x] == f.inertia && silhouettes[x] == f.silhouette
    {
      assert RunFits(fit, size, count)[x] == f;
    }
    Seqs.MeanBounds(inertias, f.inertia, f.inertia);
    Seqs.MeanBounds(silhouettes, f.silhouette, f.silhouette);
  }

  // --------------------------------------------------------------- describe_clusters

  /** The rows whose column `col` holds v, in table order (the boolean-mask selection). */
  function Members(t: Table, col: string, v: Value): (m: seq<Row>)
    requires Valid(t) && col in t.names
    ensures |m| <= |t.rows|
    ensures forall row :: row in m <==> row in t.rows && row.cells[IndexOf(t.names, col)] == v
  {
    var i := IndexOf(t.names, col);
    var p := (row: Row) => i < |row.cells| && row.cells[i] == v;
    Seqs.FilterMembers(t.rows, p);
    assert forall row :: row in t.rows ==> |row.cells| == |t.names|;
    Seqs.Filter(t.rows, p)
  }

  /** The cells of column c over some rows. */
  function Cells(rows: seq<Row>, c: nat): (cs: seq<Value>)
    requires forall k :: 0 <= k < |rows| ==> c < |rows[k].cells|
    ensures |cs| == |rows|
    ensures forall k :: 0 <= k < |rows| ==> cs[k] == rows[k].cells[c]
  {
    seq(|rows|, k requires 0 <= k < |rows| => rows[k].cells[c])
  }

  /**
   * The centroid of some rows over columns c, c + 1, ...: each column's mean, NaN when there
   * are no rows; the first column holding something other than numbers fails.
   */
  function Centroid(names: seq<string>, rows: seq<Row>, c: nat): (r: Result<seq<Value>>)
    requires c <= |names|
    requires forall k :: 0 <= k < |rows| ==> |rows[k].cells| == |names|
    ensures r.Ok? <==> forall j :: c <= j < |names| ==> AllNumbers(Cells(rows, j))
    ensures r.Ok? ==> |r.value| == |names| - c
    ensures r.Ok? ==> forall j :: 0 <= j < |r.value| ==>
      AllNumbers(Cells(rows, c + j)) && r.value[j] == Tests.MeanCell(Numbers(Cells(rows, c + j)))
    ensures r.Fail? ==> exists j :: c <= j < |names| && !AllNumbers(Cells(rows, j)) && r.error == NotNumeric(names[j])
    decreases |names| - c
  {
    if c == |names| then Ok([])
    else if !AllNumbers(Cells(rows, c)) then Fail(NotNumeric(names[c]))
    else
      match Centroid(names, rows, c + 1)
      case Fail(e) => Fail(e)
      case Ok(rest) => Ok([Tests.MeanCell(Numbers(Cells(rows, c)))] + rest)
  }

  /** A cluster none of whose rows match in `col` (possible when `col` is not "cluster") gets NaN means. */
  lemma EmptyCentroid(names: seq<string>, c: nat)
    requires c <= |names|
    ensures Centroid(names, [], c).Ok?
    ensures forall j :: 0 <= j < |Centroid(names, [], c).value| ==> Centroid(names, [], c).value[j] == NonFinite
  {
    forall j | c <= j < |names|
      ensures AllNumbers(Cells([], j))
    {
      assert Cells([], j) == [];
    }
  }

  /** The column name a cluster's centroid is written under. */
  function Header(size: nat): string {
    "n=" + Text.NatToString(size)
  }

  lemma HeaderInjective(a: nat, b: nat)
    ensures Header(a) == Header(b) <==> a == b
  {
    Text.NatToStringInjective(a, b);
    if Header(a) == Header(b) {
      assert Text.NatToString(a) == Header(a)[2..];
    }
  }

  /** The table's measures (every column after the first) keyed by name, before any cluster is added. */
  function Start(t: Table): (s: Table)
    requires |t.names| >= 1
    ensures Valid(s) && s.names == [] && |s.rows| == |t.names| - 1
    ensures forall k :: 0 <= k < |s.rows| ==> s.rows[k].key == Str(t.names[k + 1])
  {
    Table([], seq(|t.names| - 1, k requires 0 <= k < |t.names| - 1 => Row(Str(t.names[k + 1]), [])))
  }

  /** One pass of the loop: the centroid table d after cluster v is added to it. */
  function Extend(t: Table, col: string, d: Table, v: Value): (r: Result<Table>)
    requires Valid(t) && |t.names| >= 1 && Valid(d) && |d.rows| == |t.names| - 1
    ensures r.Ok? ==> Valid(r.value) && |r.value.rows| == |d.rows|
    ensures r.Ok? ==> forall k :: 0 <= k < |d.rows| ==> r.value.rows[k].key == d.rows[k].key
  {
    if col !in t.names then Fail(KeyError(col))
    else
      var members := Members(t, col, v);
      match Centroid(t.names, members, 1)
      case Fail(e) => Fail(e)
      case Ok(centroid) => Ok(AddColumn(d, Header(|members|), centroid))
  }

  /** The centroid table after the clusters `ids`, taken in this order. */
  function Describe(t: Table, col: string, ids: seq<Value>): (r: Result<Table>)
    requires Valid(t) && |t.names| >= 1
    ensures r.Ok? ==> Valid(r.value) && |r.value.rows| == |t.names| - 1
    ensures r.Ok? ==> forall k :: 0 <= k < |r.value.rows| ==> r.value.rows[k].key == Str(t.names[k + 1])
    decreases |ids|
  {
    if ids == [] then Ok(Start(t))
    else
      match Describe(t, col, ids[..|ids| - 1])
      case Fail(e) => Fail(e)
      case Ok(d) => Extend(t, col, d, ids[|ids| - 1])
  }

  lemma DescribeSnoc(t: Table, col: string, ids: seq<Value>, i: nat, d: Table)
    requires Valid(t) && |t.names| >= 1 && i < |ids|
    requires Describe(t, col, ids[..i]) == Ok(d)
    ensures Valid(d) && |d.rows| == |t.names| - 1
    ensures Describe(t, col, ids[..i + 1]) == Extend(t, col, d, ids[i])
  {
    assert ids[..i + 1][..i] == ids[..i];
  }

  /** Once a cluster fails, every longer list of clusters fails the same way. */
  lemma {:induction false} FailurePersists(t: Table, col: string, ids: seq<Value>, i: nat)
    requires Valid(t) && |t.names| >= 1 && i <= |ids|
    requires Describe(t, col, ids[..i]).Fail?
    ensures Describe(t, col, ids) == Describe(t, col, ids[..i])
    decreases |ids| - i
  {
    if i < |ids| {
      assert ids[..i + 1][..i] == ids[..i];
      FailurePersists(t, col, ids, i + 1);
    } else {
      assert ids[..i] == ids;
    }
  }

  /**
   * describe_clusters: one "n=<members>" column per distinct value of the "cluster" column
   * (in set order, returned as ids), holding the centroid of the rows whose `col` equals it.
   */
  method DescribeClusters(t: Table, col: string) returns (ids: seq<Value>, r: Result<Table>)
    requires Valid(t)
    ensures "cluster" !in t.names ==> r == Fail(KeyError("cluster"))
    ensures "cluster" in t.names ==> Seqs.Enumerates(ids, Column(t, "cluster"))
    ensures "cluster" in t.names ==> r == Describe(t, col, ids)
  {
    if "cluster" !in t.names {
      return [], Fail(KeyError("cluster"));
    }
    var distinct := Seqs.Distinct(Column(t, "cluster"));
    ids :| Seqs.Enumerates(ids, Column(t, "cluster"));
    var table := Start(t);
    assert ids[..0] == [];
    var i := 0;
    while i < |ids|
      invariant 0 <= i <= |ids|
      invariant Describe(t, col, ids[..i]) == Ok(table)
    {
      DescribeSnoc(t, col, ids, i, table);
      var next := Extend(t, col, table, ids[i]);
      if next.Fail? {
        FailurePersists(t, col, ids, i + 1);
        return ids, next;
      }
      table := next.value;
      i := i + 1;
    }
    assert ids[..i] == ids;
    r := Ok(table);
  }

  /** The size of the cluster ids[k] selects: the rows whose `col` holds it. */
  function Size(t: Table, col: string, v: Value): nat
    requires Valid(t) && col in t.names
  {
    |Members(t, col, v)|
  }

  /** The column name each cluster is written under, one per cluster. */
  function Headers(t: Table, col: string, ids: seq<Value>): (h: seq<string>)
    requires Valid(t) && col in t.names
    ensures |h| == |ids|
    ensures forall k :: 0 <= k < |ids| ==> h[k] == Header(Size(t, col, ids[k]))
  {
    seq(|ids|, k requires 0 <= k < |ids| => Header(Size(t, col, ids[k])))
  }

  /** The columns that assigning the names in order creates: a repeated name keeps its first place. */
  function Columns(names: seq<string>): seq<string> {
    if names == [] then []
    else
      var before := Columns(names[..|names| - 1]);
      if names[|names| - 1] in before then before else before + [names[|names| - 1]]
  }

  lemma {:induction false} ColumnsMembers(names: seq<string>)
    ensures forall x :: x in Columns(names) <==> x in names
  {
    if names != [] {
      var prefix := names[..|names| - 1];
      ColumnsMembers(prefix);
      assert names == prefix + [names[|names| - 1]];
    }
  }

  lemma {:induction false} ColumnsOfDistinct(names: seq<string>)
    requires forall i, j :: 0 <= i < j < |names| ==> names[i] != names[j]
    ensures Columns(names) == names
  {
    if names != [] {
      var prefix := names[..|names| - 1];
      ColumnsOfDistinct(prefix);
      assert names == prefix + [names[|names| - 1]];
    }
  }

  /** The column names of the centroid table are the clusters' headers, repeats dropped. */
  lemma {:induction false} DescribeNames(t: Table, col: string, ids: seq<Value>)
    requires Valid(t) && |t.names| >= 1 && col in t.names
    requires Describe(t, col, ids).Ok?
    ensures Describe(t, col, ids).value.names == Columns(Headers(t, col, ids))
    decreases |ids|
  {
    if ids != [] {
      var prefix := ids[..|ids| - 1];
      DescribeNames(t, col, prefix);
      assert Headers(t, col, ids)[..|ids| - 1] == Headers(t, col, prefix);
    }
  }

  /** Every cluster has a column, and every column belongs to some cluster. */
  lemma DescribeHeaders(t: Table, col: string, ids: seq<Value>)
    requires Valid(t) && |t.names| >= 1 && col in t.names
    requires Describe(t, col, ids).Ok?
    ensures forall k :: 0 <= k < |ids| ==> Header(Size(t, col, ids[k])) in Describe(t, col, ids).value.names
    ensures forall name :: name in Describe(t, col, ids).value.names ==>
      exists k :: 0 <= k < |ids| && name == Header(Size(t, col, ids[k]))
  {
    DescribeNames(t, col, ids);
    ColumnsMembers(Headers(t, col, ids));
  }

  /** The centroid table of a non-empty list of clusters: the last cluster's column written over the rest. */
  lemma DescribeLast(t: Table, col: string, ids: seq<Value>)
    requires Valid(t) && |t.names| >= 1 && col in t.names && ids != []
    requires Describe(t, col, ids).Ok?
    ensures Describe(t, col, ids[..|ids| - 1]).Ok?
    ensures Centroid(t.names, Members(t, col, ids[|ids| - 1]), 1).Ok?
    ensures Describe(t, col, ids).value
         == AddColumn(Describe(t, col, ids[..|ids| - 1]).value, Header(Size(t, col, ids[|ids| - 1])),
                      Centroid(t.names, Members(t, col, ids[|ids| - 1]), 1).value)
  {
  }

  /**
   * The column of a cluster holds that cluster's centroid, unless a later cluster of the same
   * size overwrote it.
   */
  lemma {:induction false} LastWriterWins(t: Table, col: string, ids: seq<Value>, k: nat)
    requires Valid(t) && |t.names| >= 1 && col in t.names
    requires Describe(t, col, ids).Ok? && k < |ids|
    requires forall j :: k < j < |ids| ==> Size(t, col, ids[j]) != Size(t, col, ids[k])
    ensures Centroid(t.names, Members(t, col, ids[k]), 1).Ok?
    ensures Header(Size(t, col, ids[k])) in Describe(t, col, ids).value.names
    ensures Column(Describe(t, col, ids).value, Header(Size(t, col, ids[k])))
         == Centroid(t.names, Members(t, col, ids[k]), 1).value
    decreases |ids|
  {
    var prefix := ids[..|ids| - 1];
    DescribeLast(t, col, ids);
    if k < |ids| - 1 {
      assert prefix[k] == ids[k];
      forall j | k < j < |prefix|
        ensures Size(t, col, prefix[j]) != Size(t, col, prefix[k])
      {
        assert prefix[j] == ids[j];
      }
      LastWriterWins(t, col, prefix, k);
      HeaderInjective(Size(t, col, ids[|ids| - 1]), Size(t, col, ids[k]));
    }
  }

  /** With no two clusters of the same size, the columns are the clusters' headers in order. */
  lemma ColumnPerCluster(t: Table, col: string, ids: seq<Value>)
    requires Valid(t) && |t.names| >= 1 && col in t.names
    requires Describe(t, col, ids).Ok?
    requires forall i, j :: 0 <= i < j < |ids| ==> Size(t, col, ids[i]) != Size(t, col, ids[j])
    ensures Describe(t, col, ids).value.names == Headers(t, col, ids)
  {
    var h := Headers(t, col, ids);
    forall i, j | 0 <= i < j < |h|
      ensures h[i] != h[j]
    {
      HeaderInjective(Size(t, col, ids[i]), Size(t, col, ids[j]));
    }
    DescribeNames(t, col, ids);
    ColumnsOfDistinct(h);
  }
}
