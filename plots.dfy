/** The computations inside gamba/plots.py that feed its charts: the node sizes
    of the agglomeration dendrogram, the centile bucket means, the running
    balance of a player's career and the cluster sizes. The drawing itself is
    not modelled. */
module Plots {
  import opened Tables
  import Seqs
  import Measures

  // ------------------------------------------------------------ dendrogram counts

  /** What the loop adds for one child of merge i: 1 for a sample, the count
      already recorded for an earlier merge, and 0 for a merge it has not
      reached yet (its slot in the zero-initialised array). */
  function Contribution(children: seq<(nat, nat)>, n: nat, i: nat, child: nat): nat
    requires i < |children|
    decreases n + i, 0
  {
    if child < n then 1
    else if child - n < i then Counted(children, n, child - n)
    else 0
  }

  /** counts[i] as the loop leaves it: the contributions of the two children of merge i. */
  function Counted(children: seq<(nat, nat)>, n: nat, i: nat): nat
    requires i < |children|
    decreases n + i, 1
  {
    Contribution(children, n, i, children[i].0) + Contribution(children, n, i, children[i].1)
  }

  /** Some child names neither a sample nor a merge: counts[child - n] is out of bounds. */
  predicate Dangling(children: seq<(nat, nat)>, n: nat) {
    exists i :: 0 <= i < |children| && (children[i].0 >= n + |children| || children[i].1 >= n + |children|)
  }

  /** The counts loop of plot_agglomeration_dendrogram over the merges
      (model.children_) of n samples (len(model.labels_)): the number of
      samples under each merge node, or an IndexError for a child beyond the
      last merge. */
  method DendrogramCounts(children: seq<(nat, nat)>, n: nat) returns (r: Result<seq<nat>>)
    ensures r.Fail? <==> Dangling(children, n)
    ensures r.Fail? ==> r.error == IndexError
    ensures r.Ok? ==> |r.value| == |children|
    ensures r.Ok? ==> forall i :: 0 <= i < |children| ==> r.value[i] == Counted(children, n, i)
  {
    var m := |children|;
    var counts := new nat[m](_ => 0);
    var i := 0;
    while i < m
      invariant 0 <= i <= m
      invariant forall k :: 0 <= k < i ==> counts[k] == Counted(children, n, k)
      invariant forall k :: i <= k < m ==> counts[k] == 0
      invariant forall k :: 0 <= k < i ==> children[k].0 < n + m && children[k].1 < n + m
    {
      var (a, b) := children[i];
      var current: nat := 0;
      if a >= n + m {
        return Fail(IndexError);
      }
      current := current + if a < n then 1 else counts[a - n];
      if b >= n + m {
        return Fail(IndexError);
      }
      current := current + if b < n then 1 else counts[b - n];
      counts[i] := current;
      i := i + 1;
    }
    r := Ok(counts[..]);
  }

  /** Each merge joins samples or earlier merges, as scikit-learn's children_ does. */
  predicate Earlier(children: seq<(nat, nat)>, n: nat) {
    forall i :: 0 <= i < |children| ==> children[i].0 < n + i && children[i].1 < n + i
  }

  /** The number of samples under a node: 1 for a sample, the recorded count for a merge. */
  function Weight(children: seq<(nat, nat)>, n: nat, node: nat): nat {
    if node < n then 1
    else if node - n < |children| then Counted(children, n, node - n)
    else 0
  }

  /** Under merges of earlier nodes, merge i counts the samples under both of its children. */
  lemma CountedOfEarlier(children: seq<(nat, nat)>, n: nat, i: nat)
    requires Earlier(children, n) && i < |children|
    ensures Counted(children, n, i) == Weight(children, n, children[i].0) + Weight(children, n, children[i].1)
    ensures Weight(children, n, n + i) == Counted(children, n, i)
  {
  }

  /** A binary merge of earlier nodes holds at least two samples. */
  lemma {:induction false} CountsAtLeastTwo(children: seq<(nat, nat)>, n: nat, i: nat)
    requires Earlier(children, n) && i < |children|
    ensures Counted(children, n, i) >= 2
    decreases i
  {
    var (a, b) := children[i];
    if a >= n {
      CountsAtLeastTwo(children, n, a - n);
    }
    if b >= n {
      CountsAtLeastTwo(children, n, b - n);
    }
  }

  /** lo, lo + 1, …, lo + k - 1. */
  function Nodes(lo: nat, k: nat): (s: seq<nat>)
    ensures |s| == k
  {
    if k == 0 then [] else Nodes(lo, k - 1) + [lo + k - 1]
  }

  /** The children of the merges, two per merge, in merge order. */
  function Slots(children: seq<(nat, nat)>): (s: seq<nat>)
    ensures |s| == 2 * |children|
  {
    if children == [] then []
    else Slots(children[..|children| - 1]) + [children[|children| - 1].0, children[|children| - 1].1]
  }

  /** The merges form one tree: every sample and every merge except the last
      is merged exactly once. */
  ghost predicate Tree(children: seq<(nat, nat)>, n: nat) {
    |children| > 0 && multiset(Slots(children)) == multiset(Nodes(0, n + |children| - 1))
  }

  /** The samples under each node, as reals for summing. */
  function WeightOf(children: seq<(nat, nat)>, n: nat): nat -> real {
    (node: nat) => Weight(children, n, node) as real
  }

  /** w gives every sample the weight one. */
  ghost predicate UnitSamples(n: nat, w: nat -> real) {
    forall node: nat :: node < n ==> w(node) == 1.0
  }

  /** w gives every merge the weight of its two children together. */
  ghost predicate Additive(children: seq<(nat, nat)>, n: nat, w: nat -> real) {
    forall i :: 0 <= i < |children| ==> w(n + i) == w(children[i].0) + w(children[i].1)
  }

  /** The first n + k nodes are the n samples followed by the first k merges. */
  lemma {:induction false} NodesSplit(n: nat, k: nat, top: nat)
    requires top == n + k
    ensures Nodes(0, top) == Nodes(0, n) + Nodes(n, k)
    decreases k
  {
    if k > 0 {
      NodesSplit(n, k - 1, top - 1);
    }
  }

  /** k samples weigh k. */
  lemma {:induction false} SamplesTotal(n: nat, k: nat, w: nat -> real)
    requires UnitSamples(n, w) && k <= n
    ensures Seqs.Sum(Seqs.Map(Nodes(0, k), w)) == k as real
    decreases k
  {
    if k > 0 {
      SamplesTotal(n, k - 1, w);
      Seqs.SumMapSnoc<nat>(Nodes(0, k - 1), k - 1, w);
    }
  }

  lemma SlotsSnoc(children: seq<(nat, nat)>, k: nat)
    requires 0 < k <= |children|
    ensures Slots(children[..k]) == Slots(children[..k - 1]) + [children[k - 1].0] + [children[k - 1].1]
  {
    assert children[..k][..k - 1] == children[..k - 1];
  }

  /** The children of the first k merges weigh what those k merges weigh. */
  lemma {:induction false} SlotsWeigh(children: seq<(nat, nat)>, n: nat, k: nat, w: nat -> real)
    requires Additive(children, n, w) && k <= |children|
    ensures Seqs.Sum(Seqs.Map(Slots(children[..k]), w)) == Seqs.Sum(Seqs.Map(Nodes(n, k), w))
    decreases k
  {
    if k > 0 {
      var (a, b) := children[k - 1];
      SlotsWeigh(children, n, k - 1, w);
      SlotsSnoc(children, k);
      Seqs.SumMapSnoc<nat>(Slots(children[..k - 1]), a, w);
      Seqs.SumMapSnoc<nat>(Slots(children[..k - 1]) + [a], b, w);
      Seqs.SumMapSnoc<nat>(Nodes(n, k - 1), n + k - 1, w);
    }
  }

  /** A rearrangement of the nodes below n + k weighs what the n samples and the k merges weigh. */
  lemma PermutedNodesTotal(slots: seq<nat>, top: nat, n: nat, k: nat, w: nat -> real)
    requires top == n + k && multiset(slots) == multiset(Nodes(0, top))
    requires UnitSamples(n, w)
    ensures Seqs.Sum(Seqs.Map(slots, w)) == n as real + Seqs.Sum(Seqs.Map(Nodes(n, k), w))
  {
    Seqs.SumMapPerm<nat>(slots, Nodes(0, top), w);
    NodesSplit(n, k, top);
    Seqs.SumMapConcat<nat>(Nodes(0, n), Nodes(n, k), w);
    SamplesTotal(n, n, w);
  }

  /** Counting the children of every merge in a tree two ways: the root weighs n. */
  lemma RootWeight(children: seq<(nat, nat)>, n: nat, w: nat -> real)
    requires Tree(children, n) && UnitSamples(n, w) && Additive(children, n, w)
    ensures w(n + |children| - 1) == n as real
  {
    var m := |children|;
    assert children[..m] == children;
    SlotsWeigh(children, n, m, w);
    Seqs.SumMapSnoc<nat>(Nodes(n, m - 1), n + m - 1, w);
    PermutedNodesTotal(Slots(children), n + m - 1, n, m - 1, w);
  }

  /** A tree over n samples has n - 1 merges. */
  lemma TreeSize(children: seq<(nat, nat)>, n: nat)
    requires Tree(children, n)
    ensures |children| == n - 1
  {
    assert |multiset(Slots(children))| == |multiset(Nodes(0, n + |children| - 1))|;
  }

  /** For a tree of n - 1 merges over n samples, the last merge holds every sample. */
  lemma LastMergeCountsAll(children: seq<(nat, nat)>, n: nat)
    requires Earlier(children, n) && Tree(children, n)
    ensures |children| == n - 1
    ensures Counted(children, n, |children| - 1) == n
  {
    TreeSize(children, n);
    var w := WeightOf(children, n);
    forall i | 0 <= i < |children|
      ensures w(n + i) == w(children[i].0) + w(children[i].1)
    {
      CountedOfEarlier(children, n, i);
    }
    RootWeight(children, n, w);
    CountedOfEarlier(children, n, |children| - 1);
  }

  // ------------------------------------------------------------- centile buckets

  /** The percentages plot_measure_centile cuts at: 1 to 100, or with top_heavy
      5, 10, …, 95 followed by 96 to 100. */
  function Centiles(topHeavy: bool): (ps: seq<real>)
    ensures |ps| == if topHeavy then 24 else 100
    ensures !topHeavy ==> forall k :: 0 <= k < 100 ==> ps[k] == (k + 1) as real
    ensures topHeavy ==> forall k :: 0 <= k < 19 ==> ps[k] == (5 * (k + 1)) as real
    ensures topHeavy ==> forall k :: 19 <= k < 24 ==> ps[k] == (k + 77) as real
    ensures forall j, k :: 0 <= j < k < |ps| ==> ps[j] < ps[k]
    ensures forall k :: 0 <= k < |ps| ==> 0.0 < ps[k] <= 100.0
  {
    if topHeavy then seq(19, k => (5 * (k + 1)) as real) + seq(5, k => (k + 96) as real)
    else seq(100, k => (k + 1) as real)
  }

  /** The values v with lo <= v < hi, in their order. */
  function Bucket(values: seq<real>, lo: real, hi: real): seq<real> {
    Seqs.Filter(values, v => lo <= v < hi)
  }

  /** The bar height of a bucket: the mean of its values, 0 when it is empty. */
  function BucketMean(values: seq<real>, lo: real, hi: real): real {
    var group := Bucket(values, lo, hi);
    if group == [] then 0.0 else Seqs.Mean(group)
  }

  /** The previous cutoff of bucket k: 0 for the first bucket, the preceding percentile after it. */
  function LowerCutoff(values: seq<real>, ps: seq<real>, k: nat): real
    requires |values| > 0 && k < |ps| && forall j :: 0 <= j < |ps| ==> 0.0 <= ps[j] <= 100.0
  {
    if k == 0 then 0.0 else Seqs.Percentile(values, ps[k - 1])
  }

  /** The cutoff of bucket k: np.percentile at the k-th percentage. */
  function UpperCutoff(values: seq<real>, ps: seq<real>, k: nat): real
    requires |values| > 0 && k < |ps| && forall j :: 0 <= j < |ps| ==> 0.0 <= ps[j] <= 100.0
  {
    Seqs.Percentile(values, ps[k])
  }

  /** The bar heights of plot_measure_centile, one per percentage; np.percentile
      of no values raises an IndexError. */
  method CentileMeans(values: seq<real>, topHeavy: bool) returns (r: Result<seq<real>>)
    ensures r.Fail? <==> values == []
    ensures r.Fail? ==> r.error == IndexError
    ensures r.Ok? ==> |r.value| == |Centiles(topHeavy)|
    ensures r.Ok? ==> forall k :: 0 <= k < |Centiles(topHeavy)| ==>
      r.value[k] == BucketMean(values, LowerCutoff(values, Centiles(topHeavy), k), UpperCutoff(values, Centiles(topHeavy), k))
  {
    if values == [] {
      return Fail(IndexError);
    }
    var means := BucketMeans(values, Centiles(topHeavy));
    r := Ok(means);
  }

  /** The loop of plot_measure_centile: each bucket runs from the previous
      cutoff (0 at first) up to the percentile of its percentage. */
  method BucketMeans(values: seq<real>, percentiles: seq<real>) returns (means: seq<real>)
    requires |values| > 0 && forall j :: 0 <= j < |percentiles| ==> 0.0 <= percentiles[j] <= 100.0
    ensures |means| == |percentiles|
    ensures forall k :: 0 <= k < |percentiles| ==>
      means[k] == BucketMean(values, LowerCutoff(values, percentiles, k), UpperCutoff(values, percentiles, k))
  {
    means := [];
    var previous := 0.0;
    var i := 0;
    while i < |percentiles|
      invariant 0 <= i <= |percentiles|
      invariant previous == if i == 0 then 0.0 else Seqs.Percentile(values, percentiles[i - 1])
      invariant |means| == i
      invariant forall k :: 0 <= k < i ==>
        means[k] == BucketMean(values, LowerCutoff(values, percentiles, k), UpperCutoff(values, percentiles, k))
    {
      var cutoff := Seqs.Percentile(values, percentiles[i]);
      var group := Bucket(values, previous, cutoff);
      previous := cutoff;
      var mean := 0.0;
      if |group| > 0 {
        mean := Seqs.Mean(group);
      }
      means := means + [mean];
      i := i + 1;
    }
  }

  /** The percentages rise, so the cutoffs do not fall. */
  predicate Ascending(ps: seq<real>) {
    && (forall j, k :: 0 <= j < k < |ps| ==> ps[j] < ps[k])
    && (forall k :: 0 <= k < |ps| ==> 0.0 <= ps[k] <= 100.0)
  }

  lemma InBucket(values: seq<real>, lo: real, hi: real, v: real)
    ensures v in Bucket(values, lo, hi) <==> v in values && lo <= v < hi
  {
    Seqs.FilterMembers(values, v => lo <= v < hi);
  }

  /** A value falls into at most one bucket. */
  lemma BucketsDisjoint(values: seq<real>, ps: seq<real>, j: nat, k: nat, v: real)
    requires |values| > 0 && Ascending(ps) && j < k < |ps|
    requires v in Bucket(values, LowerCutoff(values, ps, j), UpperCutoff(values, ps, j))
    ensures v !in Bucket(values, LowerCutoff(values, ps, k), UpperCutoff(values, ps, k))
  {
    InBucket(values, LowerCutoff(values, ps, j), UpperCutoff(values, ps, j), v);
    InBucket(values, LowerCutoff(values, ps, k), UpperCutoff(values, ps, k), v);
    Seqs.PercentileMonotone(values, ps[j], ps[k - 1]);
  }

  /** The largest value lies in no bucket: no cutoff exceeds it and the upper bound is strict. */
  lemma MaximumInNoBucket(values: seq<real>, ps: seq<real>, k: nat)
    requires |values| > 0 && Ascending(ps) && k < |ps|
    ensures Seqs.Sort(values)[|values| - 1] !in Bucket(values, LowerCutoff(values, ps, k), UpperCutoff(values, ps, k))
  {
    var top := Seqs.Sort(values)[|values| - 1];
    InBucket(values, LowerCutoff(values, ps, k), UpperCutoff(values, ps, k), top);
    Seqs.PercentileBounds(values, ps[k]);
  }

  /** A value below both 0 and the first cutoff lies in no bucket. */
  lemma LowValueInNoBucket(values: seq<real>, ps: seq<real>, k: nat, v: real)
    requires |values| > 0 && Ascending(ps) && k < |ps|
    requires v < 0.0 && v < UpperCutoff(values, ps, 0)
    ensures v !in Bucket(values, LowerCutoff(values, ps, k), UpperCutoff(values, ps, k))
  {
    InBucket(values, LowerCutoff(values, ps, k), UpperCutoff(values, ps, k), v);
    if k > 0 {
      Seqs.PercentileMonotone(values, ps[0], ps[k - 1]);
    }
  }

  lemma ExampleSorted()
    ensures Seqs.Sort([-1.0, -1.0, 5.0]) == [-1.0, -1.0, 5.0]
  {
    var values := [-1.0, -1.0, 5.0];
    assert values[1..] == [-1.0, 5.0];
    assert values[1..][1..] == [5.0];
    assert Seqs.Sort([5.0]) == [5.0] by {
      assert [5.0][1..] == [];
    }
    assert Seqs.Sort([-1.0, 5.0]) == [-1.0, 5.0];
  }

  lemma ExampleMedian()
    ensures Seqs.Percentile([-1.0, -1.0, 5.0], 50.0) == -1.0
  {
    ExampleSorted();
    assert Seqs.Rank(3, 50.0) == 1.0;
    assert Seqs.PercentileFloor(3, 50.0) == 1;
  }

  lemma ExampleFiftyFirst()
    ensures Seqs.Percentile([-1.0, -1.0, 5.0], 51.0) == -0.88
  {
    ExampleSorted();
    assert Seqs.Rank(3, 51.0) == 1.02;
    assert Seqs.PercentileFloor(3, 51.0) == 1;
  }

  /** Negative values are not always left out: with the values -1, -1 and 5,
      the 50th percentile is -1 and the 51st is -0.88, so -1 lands in the
      bucket of the 51st percentile. */
  lemma NegativeValueInBucket()
    ensures var values := [-1.0, -1.0, 5.0];
      -1.0 in Bucket(values, LowerCutoff(values, Centiles(false), 50), UpperCutoff(values, Centiles(false), 50))
  {
    var values := [-1.0, -1.0, 5.0];
    var ps := Centiles(false);
    assert ps[49] == 50.0 && ps[50] == 51.0;
    ExampleMedian();
    ExampleFiftyFirst();
    InBucket(values, -1.0, -0.88, -1.0);
  }

  // ----------------------------------------------------------- career balance

  /** One vertical stroke of plot_player_career: the balance before and after a bet. */
  datatype Stroke = Stroke(start: real, end: real)

  /** How a bet moves the balance: down by the stake when the payout is
      smaller than the stake, up by the payout otherwise. */
  function Move(b: Measures.Bet): real {
    if b.payoutSize < b.betSize then -b.betSize else b.payoutSize
  }

  /** The balance after the given bets, starting from 0. */
  function Balance(bets: seq<Measures.Bet>): real {
    Seqs.Sum(Seqs.Map(bets, Move))
  }

  lemma BalanceStep(bets: seq<Measures.Bet>, k: nat)
    requires k < |bets|
    ensures Balance(bets[..k + 1]) == Balance(bets[..k]) + Move(bets[k])
  {
    assert bets[..k + 1] == bets[..k] + [bets[k]];
    Seqs.MapConcat(bets[..k], [bets[k]], Move);
    Seqs.SumConcat(Seqs.Map(bets[..k], Move), Seqs.Map([bets[k]], Move));
    assert Seqs.Map([bets[k]], Move) == [Move(bets[k])];
  }

  /** The loop of plot_player_career over the bets in row order: each stroke
      starts where the previous one ended, the first one at 0. */
  method CareerStrokes(bets: seq<Measures.Bet>) returns (strokes: seq<Stroke>)
    ensures |strokes| == |bets|
    ensures forall k :: 0 <= k < |bets| ==> strokes[k] == Stroke(Balance(bets[..k]), Balance(bets[..k + 1]))
  {
    strokes := [];
    var previousEnd := 0.0;
    var i := 0;
    while i < |bets|
      invariant 0 <= i <= |bets|
      invariant |strokes| == i
      invariant previousEnd == Balance(bets[..i])
      invariant forall k :: 0 <= k < i ==> strokes[k] == Stroke(Balance(bets[..k]), Balance(bets[..k + 1]))
    {
      var bet := bets[i];
      var start := previousEnd;
      var end := 0.0;
      if bet.payoutSize < bet.betSize {
        end := start - bet.betSize;
      } else {
        end := start + bet.payoutSize;
      }
      BalanceStep(bets, i);
      strokes := strokes + [Stroke(start, end)];
      previousEnd := end;
      i := i + 1;
    }
  }

  /** A losing bet with a positive stake draws a stroke downwards; a winning
      bet with a non-negative payout draws one upwards or none. */
  lemma StrokeDirection(bets: seq<Measures.Bet>, k: nat)
    requires k < |bets|
    ensures bets[k].payoutSize < bets[k].betSize && bets[k].betSize > 0.0 ==>
      Balance(bets[..k + 1]) < Balance(bets[..k])
    ensures bets[k].payoutSize >= bets[k].betSize && bets[k].payoutSize >= 0.0 ==>
      Balance(bets[..k + 1]) >= Balance(bets[..k])
  {
    BalanceStep(bets, k);
  }

  /** Where the last stroke ends does not depend on the order of the bets. */
  lemma FinalBalanceIgnoresOrder(a: seq<Measures.Bet>, b: seq<Measures.Bet>)
    requires multiset(a) == multiset(b)
    ensures Balance(a) == Balance(b)
  {
    Seqs.MapPerm(a, b, Move);
    Seqs.SumPerm(Seqs.Map(a, Move), Seqs.Map(b, Move));
  }

  // --------------------------------------------------------------- cluster sizes

  /** The sum of a list of sizes. */
  function Total(sizes: seq<nat>): nat {
    if sizes == [] then 0 else sizes[0] + Total(sizes[1..])
  }

  lemma {:induction false} TotalOfCounts(labels: seq<int>, ids: seq<int>, sizes: seq<nat>)
    requires |sizes| == |ids| && forall k :: 0 <= k < |ids| ==> sizes[k] == Seqs.Count(labels, ids[k])
    ensures Total(sizes) == Seqs.SumCounts(labels, ids)
  {
    if ids != [] {
      TotalOfCounts(labels, ids[1..], sizes[1..]);
    }
  }

  /** plot_cluster_sizes' bar data: the distinct cluster labels in set order
      and how many samples carry each; every size is positive and the sizes
      add up to the number of samples. */
  method ClusterSizes(labels: seq<int>) returns (ids: seq<int>, sizes: seq<nat>)
    ensures Seqs.Enumerates(ids, labels)
    ensures |sizes| == |ids|
    ensures forall k :: 0 <= k < |ids| ==> sizes[k] == Seqs.Count(labels, ids[k]) && sizes[k] >= 1
    ensures Total(sizes) == |labels|
  {
    var distinct := Seqs.Distinct(labels);
    ids :| Seqs.Enumerates(ids, labels);
    sizes := seq(|ids|, k requires 0 <= k < |ids| => Seqs.Count(labels, ids[k]));
    TotalOfCounts(labels, ids, sizes);
    Seqs.CountsCoverSequence(labels, ids);
  }
}
