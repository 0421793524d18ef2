/** label_overlap_table of gamba/tests.py: how many rows carry one label
    exclusively, how many carry exactly a pair of labels, and how many carry
    all of them, each with its share of a reference group in whole percent. */
module Overlap {
  import opened Tables
  import Seqs
  import Text

  // ------------------------------------------------------------------ label lists

  /** list.remove(x): the list without the first occurrence of x. */
  function Remove(s: seq<string>, x: string): (r: seq<string>)
    ensures forall y :: y in r ==> y in s
    ensures s != [] && s[0] == x ==> r == s[1..]
  {
    if s == [] then []
    else if s[0] == x then s[1..]
    else [s[0]] + Remove(s[1..], x)
  }

  /** The first label, in list order, that the table lacks. */
  function Missing(names: seq<string>, ls: seq<string>): (r: Option<string>)
    ensures r.None? <==> forall l :: l in ls ==> l in names
    ensures r.Some? ==> r.value in ls && r.value !in names
  {
    if ls == [] then None
    else if ls[0] !in names then Some(ls[0])
    else
      assert forall l :: l in ls ==> l == ls[0] || l in ls[1..];
      Missing(names, ls[1..])
  }

  lemma {:induction false} MissingAt(names: seq<string>, ls: seq<string>, i: nat)
    requires i < |ls| && ls[i] !in names
    requires forall j :: 0 <= j < i ==> ls[j] in names
    ensures Missing(names, ls) == Some(ls[i])
  {
    if i > 0 {
      MissingAt(names, ls[1..], i - 1);
    }
  }

  // ------------------------------------------------------------------ row masks

  /** measures_table[name] == v, row by row. */
  function Is(t: Table, name: string, v: real): Row -> bool
    requires name in t.names
  {
    var i := IndexOf(t.names, name);
    (row: Row) => i < |row.cells| && row.cells[i] == Num(v)
  }

  /** Every one of the labels `ls` equals v in the row. */
  function AllAre(t: Table, ls: seq<string>, v: real): Row -> bool
    requires forall l :: l in ls ==> l in t.names
  {
    (row: Row) => forall l | l in ls :: Is(t, l, v)(row)
  }

  /** The chosen labels equal 1 and the others 0. */
  function Exclusive(t: Table, chosen: seq<string>, others: seq<string>): Row -> bool
    requires forall l :: l in chosen ==> l in t.names
    requires forall l :: l in others ==> l in t.names
  {
    (row: Row) => AllAre(t, chosen, 1.0)(row) && AllAre(t, others, 0.0)(row)
  }

  /** Both labels of a pair equal 1. */
  function Both(t: Table, a: string, b: string): Row -> bool
    requires a in t.names && b in t.names
  {
    (row: Row) => Is(t, a, 1.0)(row) && Is(t, b, 1.0)(row)
  }

  ghost predicate Present(t: Table, ls: seq<string>) {
    forall l :: l in ls ==> l in t.names
  }

  // ------------------------------------------------------------------ the counted groups

  /** The rows with `l` equal to 1. */
  function WithOne(t: Table, l: string): seq<Row>
    requires l in t.names
  {
    Seqs.Filter(t.rows, Is(t, l, 1.0))
  }

  /** The rows with label i equal to 1 and every other label equal to 0. */
  function OnlyLabel(t: Table, labels: seq<string>, i: nat): seq<Row>
    requires Present(t, labels) && i < |labels|
  {
    Seqs.Filter(t.rows, Exclusive(t, [labels[i]], Remove(labels, labels[i])))
  }

  /** The rows with labels i and j equal to 1 and every other label equal to 0. */
  function OnlyPair(t: Table, labels: seq<string>, i: nat, j: nat): seq<Row>
    requires Present(t, labels) && i < |labels| && j < |labels|
  {
    Seqs.Filter(t.rows, Exclusive(t, [labels[i], labels[j]], Remove(Remove(labels, labels[i]), labels[j])))
  }

  /** The rows with every label equal to 1. */
  function AllLabels(t: Table, labels: seq<string>): seq<Row>
    requires Present(t, labels)
  {
    Seqs.Filter(t.rows, AllAre(t, labels, 1.0))
  }

  // ------------------------------------------------------------------ cell text

  /** "k (p)": a count and its share of m in whole percent, p = round(k / m * 100). */
  function Share(k: nat, m: nat): (s: string)
    requires m > 0
    ensures |s| >= 5 && s[|s| - 1] == ')'
  {
    Entry(Text.NatToString(k), Text.RoundHalfEven(Percent(k, m)))
  }

  /** len(part) / len(whole) * 100 in true division. */
  function Percent(k: nat, m: nat): real
    requires m > 0
  {
    k as real / m as real * 100.0
  }

  /** The text of an entry: a count, then its whole percentage in parentheses. */
  function Entry(count: string, percent: int): (s: string)
    requires |count| > 0
    ensures |s| >= 5 && s[|s| - 1] == ')'
  {
    count + " (" + Text.IntToString(percent) + ")"
  }

  /** A share of a count that is part of the whole is between 0 and 100 percent. */
  lemma SharePercentBounds(k: nat, m: nat)
    requires 0 < m && k <= m
    ensures 0 <= Text.RoundHalfEven(Percent(k, m)) <= 100
  {
    var f := k as real / m as real;
    assert f * m as real == k as real;
    assert 0.0 <= f <= 1.0;
  }

  /** str() of a whole number held in a float array: "k.0". */
  function FloatText(k: nat): (s: string)
    ensures |s| >= 3 && s[|s| - 2..] == ".0"
  {
    Text.NatToString(k) + ".0"
  }

  /** float(s) for the cells the table can hold: the digits of a whole float, or nothing. */
  function ParseFloatText(s: string): Option<nat> {
    if |s| >= 3 && s[|s| - 2..] == ".0" && forall i :: 0 <= i < |s| - 2 ==> Text.IsDigit(s[i])
    then Some(Text.ParseNat(s[..|s| - 2]))
    else None
  }

  lemma ParseFloatTextOf(k: nat)
    ensures ParseFloatText(FloatText(k)) == Some(k)
  {
    var s := FloatText(k);
    assert s[..|s| - 2] == Text.NatToString(k);
    Text.ParseNatToString(k);
  }

  lemma ParseFloatTextOfShare(k: nat, m: nat)
    requires m > 0
    ensures ParseFloatText(Share(k, m)) == None
  {
    var s := Share(k, m);
    assert s[|s| - 2..][1] == s[|s| - 1];
  }

  /** A count renders as "0.0" exactly when it is zero, so only zero counts become "-". */
  lemma FloatTextZero(k: nat)
    ensures FloatText(k) == "0.0" <==> k == 0
  {
    var s := FloatText(k);
    if s == "0.0" {
      assert Text.NatToString(k) == s[..|s| - 2] == "0";
      assert Text.NatToString(0) == "0";
      Text.NatToStringInjective(k, 0);
    }
  }

  // ------------------------------------------------------------------ label pairs

  /** The pairs (i, j), i < j < n, whose first member is i, in order of j. */
  function RowPairs(i: nat, n: nat): (r: seq<(nat, nat)>)
    requires i < n
    ensures |r| == n - 1 - i
  {
    seq(n - 1 - i, k requires 0 <= k < n - 1 - i => (i, i + 1 + k))
  }

  lemma RowPairsSnoc(i: nat, j: nat)
    requires i < j
    ensures RowPairs(i, j + 1) == RowPairs(i, j) + [(i, j)]
  {
  }

  /** The pairs whose first member is below i, in the order of the nested loops. */
  function PairsBefore(i: nat, n: nat): (r: seq<(nat, nat)>)
    requires i <= n
  {
    if i == 0 then [] else PairsBefore(i - 1, n) + RowPairs(i - 1, n)
  }

  lemma {:induction false} PairsBeforeBounds(i: nat, n: nat)
    requires i <= n
    ensures forall k :: 0 <= k < |PairsBefore(i, n)| ==> PairsBefore(i, n)[k].0 < i && PairsBefore(i, n)[k].0 < PairsBefore(i, n)[k].1 < n
  {
    if i > 0 {
      PairsBeforeBounds(i - 1, n);
    }
  }

  /** Every pair of positions of n labels, first by first position, then by second. */
  function Pairs(n: nat): (r: seq<(nat, nat)>)
    ensures forall k :: 0 <= k < |r| ==> r[k].0 < r[k].1 < n
  {
    if n == 0 then [] else PairsBeforeBounds(n - 1, n); PairsBefore(n - 1, n)
  }

  lemma {:induction false} PairsBeforeSize(i: nat, n: nat)
    requires i <= n
    ensures 2 * |PairsBefore(i, n)| == i * (2 * n - 1 - i)
  {
    if i > 0 {
      PairsBeforeSize(i - 1, n);
      assert 2 * |PairsBefore(i, n)| == (i - 1) * (2 * n - i) + 2 * (n - i);
    }
  }

  /** There are n·(n-1)/2 pairs, which equals the number of labels only for 0 or 3 labels. */
  lemma PairsSize(n: nat)
    ensures 2 * |Pairs(n)| == n * (n - 1)
    ensures |Pairs(n)| == n <==> n == 0 || n == 3
  {
    if n > 0 {
      PairsBeforeSize(n - 1, n);
      assert 2 * |Pairs(n)| == (n - 1) * n;
      if |Pairs(n)| == n {
        assert n * (n - 1) == n * 2;
      }
    }
  }

  lemma PairsOfThree()
    ensures Pairs(3) == [(0, 1), (0, 2), (1, 2)]
  {
    assert PairsBefore(1, 3) == [(0, 1), (0, 2)];
  }

  /** labels.index: the first position of each label. */
  lemma IndexOfDistinct(labels: seq<string>, p: nat)
    requires p < |labels|
    requires forall i, j :: 0 <= i < j < |labels| ==> labels[i] != labels[j]
    ensures IndexOf(labels, labels[p]) == p
  {
  }

  /** A numpy index, where -1 counts from the end. */
  function Wrap(i: int, m: nat): int {
    if i < 0 then i + m else i
  }

  // ------------------------------------------------------------------ the loops

  /** for other_label in other_labels: records = records[records[other_label] == v] */
  method KeepAll(t: Table, rows: seq<Row>, ls: seq<string>, v: real) returns (r: Result<seq<Row>>)
    ensures r.Fail? <==> Missing(t.names, ls).Some?
    ensures r.Fail? ==> r.error == KeyError(Missing(t.names, ls).value)
    ensures r.Ok? ==> r.value == Seqs.Filter(rows, AllAre(t, ls, v))
  {
    var kept := rows;
    Seqs.FilterAll(rows, AllAre(t, ls[..0], v));
    for i := 0 to |ls|
      invariant forall j :: 0 <= j < i ==> ls[j] in t.names
      invariant Present(t, ls[..i]) && kept == Seqs.Filter(rows, AllAre(t, ls[..i], v))
    {
      if ls[i] !in t.names {
        MissingAt(t.names, ls, i);
        return Fail(KeyError(ls[i]));
      }
      KeepStep(t, rows, ls, i, v);
      kept := Seqs.Filter(kept, Is(t, ls[i], v));
    }
    assert ls[..|ls|] == ls;
    assert Missing(t.names, ls).None?;
    r := Ok(kept);
  }

  /** One more label of the loop: filtering by it narrows the rows kept so far. */
  lemma KeepStep(t: Table, rows: seq<Row>, ls: seq<string>, i: nat, v: real)
    requires i < |ls| && Present(t, ls[..i]) && ls[i] in t.names
    ensures Present(t, ls[..i + 1])
    ensures Seqs.Filter(Seqs.Filter(rows, AllAre(t, ls[..i], v)), Is(t, ls[i], v)) == Seqs.Filter(rows, AllAre(t, ls[..i + 1], v))
  {
    assert ls[..i + 1] == ls[..i] + [ls[i]];
    forall row | row in rows
      ensures AllAre(t, ls[..i + 1], v)(row) == (AllAre(t, ls[..i], v)(row) && Is(t, ls[i], v)(row))
    {
      AllAreSnoc(t, ls[..i], ls[i], v, row);
    }
    Seqs.FilterTwice(rows, AllAre(t, ls[..i], v), Is(t, ls[i], v), AllAre(t, ls[..i + 1], v));
  }

  lemma AllAreSnoc(t: Table, ls: seq<string>, l: string, v: real, row: Row)
    requires Present(t, ls) && l in t.names
    ensures Present(t, ls + [l])
    ensures AllAre(t, ls + [l], v)(row) == (AllAre(t, ls, v)(row) && Is(t, l, v)(row))
  {
    assert forall m :: m in ls + [l] <==> m in ls || m == l;
  }

  /** Filtering the rows with the label by the others being 0 leaves the rows with only that label. */
  lemma OnlyLabelByFilters(t: Table, labels: seq<string>, i: nat)
    requires Present(t, labels) && i < |labels|
    ensures Seqs.Filter(Seqs.Filter(t.rows, Is(t, labels[i], 1.0)), AllAre(t, Remove(labels, labels[i]), 0.0))
      == OnlyLabel(t, labels, i)
  {
    var tag := labels[i];
    var others := Remove(labels, tag);
    forall row | row in t.rows
      ensures Exclusive(t, [tag], others)(row) == (Is(t, tag, 1.0)(row) && AllAre(t, others, 0.0)(row))
    {
      AllAreOne(t, tag, 1.0, row);
    }
    Seqs.FilterTwice(t.rows, Is(t, tag, 1.0), AllAre(t, others, 0.0), Exclusive(t, [tag], others));
  }

  lemma AllAreOne(t: Table, a: string, v: real, row: Row)
    requires a in t.names
    ensures AllAre(t, [a], v)(row) == Is(t, a, v)(row)
  {
    if AllAre(t, [a], v)(row) {
      assert a in [a];
    }
  }

  lemma AllAreTwo(t: Table, a: string, b: string, v: real, row: Row)
    requires a in t.names && b in t.names
    ensures AllAre(t, [a, b], v)(row) == (Is(t, a, v)(row) && Is(t, b, v)(row))
  {
    var ab := [a, b];
    if AllAre(t, ab, v)(row) {
      assert ab[0] in ab && ab[1] in ab;
    }
  }

  /** Filtering the rows with both labels by the others being 0 leaves the rows with only that pair. */
  lemma OnlyPairByFilters(t: Table, labels: seq<string>, i: nat, j: nat)
    requires Present(t, labels) && i < |labels| && j < |labels|
    ensures Seqs.Filter(Seqs.Filter(t.rows, Both(t, labels[i], labels[j])), AllAre(t, Remove(Remove(labels, labels[i]), labels[j]), 0.0))
      == OnlyPair(t, labels, i, j)
  {
    var a, b := labels[i], labels[j];
    var others := Remove(Remove(labels, a), b);
    forall row | row in t.rows
      ensures Exclusive(t, [a, b], others)(row) == (Both(t, a, b)(row) && AllAre(t, others, 0.0)(row))
    {
      AllAreTwo(t, a, b, 1.0, row);
    }
    Seqs.FilterTwice(t.rows, Both(t, a, b), AllAre(t, others, 0.0), Exclusive(t, [a, b], others));
  }

  /** One pass of the first loop, for label i: "k (p)" with k the rows with
      only that label and p their share of the rows with that label. Looking
      up the other labels reports the first missing one; a label no row
      carries divides by zero. */
  method DiagonalEntry(t: Table, labels: seq<string>, i: nat) returns (r: Result<string>)
    requires i < |labels|
    requires i > 0 ==> Missing(t.names, labels).None?
    ensures Missing(t.names, labels).Some? ==> r == Fail(KeyError(Missing(t.names, labels).value))
    ensures Missing(t.names, labels).None? ==> (r.Fail? <==> WithOne(t, labels[i]) == [])
    ensures Missing(t.names, labels).None? && r.Fail? ==> r.error == ZeroDivision
    ensures r.Ok? ==> Present(t, labels) && |WithOne(t, labels[i])| > 0
    ensures r.Ok? ==> r.value == Share(|OnlyLabel(t, labels, i)|, |WithOne(t, labels[i])|)
  {
    var tag := labels[i];
    var otherLabels := Remove(labels, tag);
    if tag !in t.names {
      MissingAt(t.names, labels, 0);
      return Fail(KeyError(tag));
    }
    var recordsWithLabel := Seqs.Filter(t.rows, Is(t, tag, 1.0));
    var kept := KeepAll(t, recordsWithLabel, otherLabels, 0.0);
    if kept.Fail? {
      assert Missing(t.names, otherLabels) == Missing(t.names, labels) by {
        if i > 0 {
          assert false;
        }
      }
      return Fail(kept.error);
    }
    var recordsWithOnlyLabel := kept.value;
    if |recordsWithLabel| == 0 {
      return Fail(ZeroDivision);
    }
    assert Present(t, labels);
    assert recordsWithOnlyLabel == OnlyLabel(t, labels, i) by {
      OnlyLabelByFilters(t, labels, i);
    }
    r := Ok(Share(|recordsWithOnlyLabel|, |recordsWithLabel|));
  }

  /** For each label, the rows with only that label and the rows with it. */
  function DiagonalCounts(t: Table, labels: seq<string>): (cs: seq<(nat, nat)>)
    requires Present(t, labels)
  {
    seq(|labels|, k requires 0 <= k < |labels| => (|OnlyLabel(t, labels, k)|, |WithOne(t, labels[k])|))
  }

  lemma DiagonalCountsPositive(t: Table, labels: seq<string>)
    requires Present(t, labels)
    requires forall k :: 0 <= k < |labels| ==> DiagonalCounts(t, labels)[k].1 > 0
    ensures forall k :: 0 <= k < |labels| ==> |WithOne(t, labels[k])| > 0
    ensures !exists k :: 0 <= k < |labels| && WithOne(t, labels[k]) == []
  {
    var cs := DiagonalCounts(t, labels);
    forall k | 0 <= k < |labels|
      ensures |WithOne(t, labels[k])| > 0
    {
      assert cs[k].1 > 0;
    }
  }

  /** The "k (p)" text of each count pair. */
  function Shares(cs: seq<(nat, nat)>): (r: seq<string>)
    requires forall k :: 0 <= k < |cs| ==> cs[k].1 > 0
    ensures |r| == |cs|
  {
    if cs == [] then [] else Shares(cs[..|cs| - 1]) + [Share(cs[|cs| - 1].0, cs[|cs| - 1].1)]
  }

  lemma {:induction false} SharesAt(cs: seq<(nat, nat)>, k: nat)
    requires forall h :: 0 <= h < |cs| ==> cs[h].1 > 0
    requires k < |cs|
    ensures Shares(cs)[k] == Share(cs[k].0, cs[k].1)
  {
    if k < |cs| - 1 {
      SharesAt(cs[..|cs| - 1], k);
    }
  }

  /** The first loop: the entry of each label, in label order. The first
      iteration looks up every label, so a missing one fails before any count. */
  method DiagonalEntries(t: Table, labels: seq<string>) returns (r: Result<seq<string>>)
    ensures Missing(t.names, labels).Some? ==> r == Fail(KeyError(Missing(t.names, labels).value))
    ensures Missing(t.names, labels).None? ==>
      (r.Fail? <==> exists k :: 0 <= k < |labels| && WithOne(t, labels[k]) == [])
    ensures Missing(t.names, labels).None? && r.Fail? ==> r.error == ZeroDivision
    ensures r.Ok? ==> Present(t, labels) && forall k :: 0 <= k < |labels| ==> |WithOne(t, labels[k])| > 0
    ensures r.Ok? ==> |r.value| == |labels|
    ensures r.Ok? ==> forall k :: 0 <= k < |labels| ==> r.value[k] == Share(|OnlyLabel(t, labels, k)|, |WithOne(t, labels[k])|)
  {
    var firstDiagonalValues: seq<string> := [];
    ghost var counts: seq<(nat, nat)> := [];
    for i := 0 to |labels|
      invariant |counts| == i && forall k :: 0 <= k < i ==> counts[k].1 > 0
      invariant firstDiagonalValues == Shares(counts)
      invariant i > 0 ==> Missing(t.names, labels).None? && Present(t, labels)
      invariant i > 0 ==> counts == DiagonalCounts(t, labels)[..i]
    {
      var entry := DiagonalEntry(t, labels, i);
      if entry.Fail? {
        return Fail(entry.error);
      }
      ghost var c := (|OnlyLabel(t, labels, i)|, |WithOne(t, labels[i])|);
      assert c == DiagonalCounts(t, labels)[i];
      SharesSnoc(counts, c);
      Seqs.PrefixStep(DiagonalCounts(t, labels), i);
      firstDiagonalValues := firstDiagonalValues + [entry.value];
      counts := counts + [c];
    }
    if |labels| > 0 {
      Seqs.PrefixAll(DiagonalCounts(t, labels));
      DiagonalCountsPositive(t, labels);
      forall k | 0 <= k < |labels|
        ensures firstDiagonalValues[k] == Share(|OnlyLabel(t, labels, k)|, |WithOne(t, labels[k])|)
      {
        DiagonalAt(t, labels, k);
      }
    }
    r := Ok(firstDiagonalValues);
  }

  lemma SharesSnoc(cs: seq<(nat, nat)>, c: (nat, nat))
    requires forall k :: 0 <= k < |cs| ==> cs[k].1 > 0
    requires c.1 > 0
    ensures forall k :: 0 <= k < |cs| + 1 ==> (cs + [c])[k].1 > 0
    ensures Shares(cs + [c]) == Shares(cs) + [Share(c.0, c.1)]
  {
    assert (cs + [c])[..|cs|] == cs;
  }

  /** Where the count of the pair of positions p is written:
      [labels.index(a), labels.index(a) + labels.index(b) - 1]. */
  function Position(labels: seq<string>, p: (nat, nat)): (int, int)
    requires p.0 < |labels| && p.1 < |labels|
  {
    (IndexOf(labels, labels[p.0]) as int, IndexOf(labels, labels[p.0]) + IndexOf(labels, labels[p.1]) - 1)
  }

  /** The pair loops: every pair of label positions in loop order, with the
      matrix position its count is written to. */
  method Combinations(labels: seq<string>) returns (pairs: seq<(nat, nat)>, positions: seq<(int, int)>)
    ensures pairs == Pairs(|labels|) && |positions| == |pairs|
    ensures forall k :: 0 <= k < |pairs| ==> positions[k] == Position(labels, pairs[k])
  {
    pairs, positions := [], [];
    var n := |labels|;
    if n == 0 {
      return;
    }
    for i := 0 to n - 1
      invariant pairs == PairsBefore(i, n)
      invariant Positioned(labels, pairs, positions)
    {
      for j := i + 1 to n
        invariant pairs == PairsBefore(i, n) + RowPairs(i, j)
        invariant Positioned(labels, pairs, positions)
      {
        RowPairsSnoc(i, j);
        Seqs.SnocAssoc(PairsBefore(i, n), RowPairs(i, j), (i, j));
        var position := (IndexOf(labels, labels[i]) as int, IndexOf(labels, labels[i]) + IndexOf(labels, labels[j]) - 1);
        PositionedSnoc(labels, pairs, positions, (i, j), position);
        pairs := pairs + [(i, j)];
        positions := positions + [position];
      }
    }
  }

  /** Each pair is of label positions, and each position is the pair's matrix position. */
  ghost predicate Positioned(labels: seq<string>, pairs: seq<(nat, nat)>, positions: seq<(int, int)>) {
    && |positions| == |pairs|
    && forall k :: 0 <= k < |pairs| ==> pairs[k].0 < pairs[k].1 < |labels| && positions[k] == Position(labels, pairs[k])
  }

  lemma PositionedSnoc(labels: seq<string>, pairs: seq<(nat, nat)>, positions: seq<(int, int)>, p: (nat, nat), position: (int, int))
    requires Positioned(labels, pairs, positions)
    requires p.0 < p.1 < |labels| && position == Position(labels, p)
    ensures Positioned(labels, pairs + [p], positions + [position])
  {
  }

  /** The rows with only the pair, for each pair of positions. */
  function PairSizes(t: Table, labels: seq<string>, pairs: seq<(nat, nat)>): (vs: seq<nat>)
    requires Present(t, labels)
    requires forall k :: 0 <= k < |pairs| ==> pairs[k].0 < pairs[k].1 < |labels|
  {
    seq(|pairs|, k requires 0 <= k < |pairs| => |OnlyPair(t, labels, pairs[k].0, pairs[k].1)|)
  }

  /** The rows with the first label, for each pair of positions. */
  function FirstSizes(t: Table, labels: seq<string>, pairs: seq<(nat, nat)>): (ms: seq<nat>)
    requires Present(t, labels)
    requires forall k :: 0 <= k < |pairs| ==> pairs[k].0 < pairs[k].1 < |labels|
  {
    seq(|pairs|, k requires 0 <= k < |pairs| => |WithOne(t, labels[pairs[k].0])|)
  }

  /** Each count as a percentage of its reference count. */
  function Percentages(vs: seq<nat>, ms: seq<nat>): (ps: seq<real>)
    requires |vs| == |ms| && forall k :: 0 <= k < |ms| ==> ms[k] > 0
  {
    seq(|vs|, k requires 0 <= k < |vs| => Percent(vs[k], ms[k]))
  }

  /** One pass of the pair loop: the rows with both labels of the pair and
      no other, and their share of the rows with the first label. */
  method PairEntry(t: Table, labels: seq<string>, i: nat, j: nat) returns (count: nat, percentage: real)
    requires Present(t, labels) && i < |labels| && j < |labels|
    requires |WithOne(t, labels[i])| > 0
    ensures count == |OnlyPair(t, labels, i, j)|
    ensures percentage == Percent(count, |WithOne(t, labels[i])|)
  {
    var a, b := labels[i], labels[j];
    var recordsWithFirst := Seqs.Filter(t.rows, Is(t, a, 1.0));
    var recordsWithBoth := Seqs.Filter(t.rows, Both(t, a, b));
    var otherLabels := Remove(Remove(labels, a), b);
    var kept := KeepAll(t, recordsWithBoth, otherLabels, 0.0);
    if kept.Fail? {
      assert false;
    }
    var recordsWithOnlyBoth := kept.value;
    assert recordsWithOnlyBoth == OnlyPair(t, labels, i, j) by {
      OnlyPairByFilters(t, labels, i, j);
    }
    count := |recordsWithOnlyBoth|;
    percentage := count as real / |recordsWithFirst| as real * 100.0;
  }

  /** The second loop: the count and percentage of every pair, in pair order. */
  method PairCounts(t: Table, labels: seq<string>, pairs: seq<(nat, nat)>) returns (values: seq<nat>, percentages: seq<real>)
    requires Present(t, labels)
    requires forall k :: 0 <= k < |pairs| ==> pairs[k].0 < pairs[k].1 < |labels|
    requires forall k :: 0 <= k < |pairs| ==> FirstSizes(t, labels, pairs)[k] > 0
    ensures values == PairSizes(t, labels, pairs)
    ensures percentages == Percentages(values, FirstSizes(t, labels, pairs))
  {
    values, percentages := [], [];
    ghost var sizes, firsts := PairSizes(t, labels, pairs), FirstSizes(t, labels, pairs);
    ghost var shares := Percentages(sizes, firsts);
    for k := 0 to |pairs|
      invariant values == sizes[..k]
      invariant percentages == shares[..k]
    {
      assert firsts[k] == |WithOne(t, labels[pairs[k].0])|;
      var count, percentage := PairEntry(t, labels, pairs[k].0, pairs[k].1);
      assert count == sizes[k] && percentage == shares[k];
      Seqs.PrefixStep(sizes, k);
      Seqs.PrefixStep(shares, k);
      values := values + [count];
      percentages := percentages + [percentage];
    }
    Seqs.PrefixAll(sizes);
    Seqs.PrefixAll(shares);
  }

  // ------------------------------------------------------------------ the frames

  /** df.replace(target, replacement, inplace=True) on a frame of text cells. */
  method ReplaceAll(m: array2<string>, target: string, replacement: string)
    modifies m
    ensures forall i, j :: 0 <= i < m.Length0 && 0 <= j < m.Length1 ==>
      m[i, j] == Replaced(old(m[i, j]), target, replacement)
  {
    for i := 0 to m.Length0
      invariant forall a, b :: 0 <= a < m.Length0 && 0 <= b < m.Length1 ==>
        m[a, b] == if a < i then Replaced(old(m[a, b]), target, replacement) else old(m[a, b])
    {
      for j := 0 to m.Length1
        invariant forall a, b :: 0 <= a < m.Length0 && 0 <= b < m.Length1 ==>
          m[a, b] == if a < i || (a == i && b < j) then Replaced(old(m[a, b]), target, replacement) else old(m[a, b])
      {
        if m[i, j] == target {
          m[i, j] := replacement;
        }
      }
    }
  }

  function Replaced(s: string, target: string, replacement: string): string {
    if s == target then replacement else s
  }

  /** The left side: an n×n frame of str(0.0), the diagonal filled with the
      entries, then every "0.0" replaced by "-". */
  method LeftSide(diagonal: seq<string>) returns (left: array2<string>)
    requires forall k :: 0 <= k < |diagonal| ==> diagonal[k] != "0.0"
    ensures fresh(left) && left.Length0 == |diagonal| && left.Length1 == |diagonal|
    ensures forall i, j :: 0 <= i < |diagonal| && 0 <= j < |diagonal| ==>
      left[i, j] == if i == j then diagonal[i] else "-"
  {
    var n := |diagonal|;
    left := new string[n, n]((i, j) => "0.0");
    for i := 0 to n
      invariant forall a, b :: 0 <= a < n && 0 <= b < n ==> left[a, b] == if a == b && a < i then diagonal[a] else "0.0"
    {
      left[i, i] := diagonal[i];
    }
    ReplaceAll(left, "0.0", "-");
  }

  /** A matrix position that numpy accepts, counting -1 from the end. */
  predicate InRange(p: (int, int), size: nat) {
    0 <= Wrap(p.0, size) < size && 0 <= Wrap(p.1, size) < size
  }

  function Wrapped(p: (int, int), size: nat): (int, int) {
    (Wrap(p.0, size), Wrap(p.1, size))
  }

  /** The matrix cell (i, j) after writing values[k] at positions[k] in order:
      the last write to a cell wins, and an unwritten cell stays 0. */
  function Written(values: seq<nat>, positions: seq<(int, int)>, size: nat, i: int, j: int): nat
    requires |values| == |positions|
  {
    if values == [] then 0
    else if Wrapped(positions[|values| - 1], size) == (i, j) then values[|values| - 1]
    else Written(values[..|values| - 1], positions[..|values| - 1], size, i, j)
  }

  /** With the positions all different, a written cell holds its own value. */
  lemma {:induction false} WrittenAt(values: seq<nat>, positions: seq<(int, int)>, size: nat, k: nat)
    requires |values| == |positions| && k < |values|
    requires forall a, b :: 0 <= a < b < |positions| ==> Wrapped(positions[a], size) != Wrapped(positions[b], size)
    ensures Written(values, positions, size, Wrapped(positions[k], size).0, Wrapped(positions[k], size).1) == values[k]
  {
    var last := |values| - 1;
    if k < last {
      WrittenAt(values[..last], positions[..last], size, k);
    }
  }

  /** A cell no position points to stays 0. */
  lemma {:induction false} WrittenNowhere(values: seq<nat>, positions: seq<(int, int)>, size: nat, i: int, j: int)
    requires |values| == |positions|
    requires forall k :: 0 <= k < |positions| ==> Wrapped(positions[k], size) != (i, j)
    ensures Written(values, positions, size, i, j) == 0
  {
    if values != [] {
      var last := |values| - 1;
      WrittenNowhere(values[..last], positions[..last], size, i, j);
    }
  }

  /** combination_matrix[index_combinations[k]] = combination_values[k] on a size×size matrix of zeros. */
  method PairMatrix(values: seq<nat>, positions: seq<(int, int)>, size: nat) returns (matrix: array2<nat>)
    requires |positions| == |values|
    requires forall k :: 0 <= k < |positions| ==> InRange(positions[k], size)
    ensures fresh(matrix) && matrix.Length0 == size && matrix.Length1 == size
    ensures forall i, j :: 0 <= i < size && 0 <= j < size ==> matrix[i, j] == Written(values, positions, size, i, j)
  {
    matrix := new nat[size, size]((i, j) => 0);
    for k := 0 to |values|
      invariant forall i, j :: 0 <= i < size && 0 <= j < size ==>
        matrix[i, j] == Written(values[..k], positions[..k], size, i, j)
    {
      var p := Wrapped(positions[k], size);
      matrix[p.0, p.1] := values[k];
      assert values[..k + 1][..k] == values[..k] && positions[..k + 1][..k] == positions[..k];
    }
    assert values[..|values|] == values && positions[..|values|] == positions;
  }

  /** combination_df.applymap(str): each whole-number float as "k.0". */
  method FloatTexts(matrix: array2<nat>) returns (cells: array2<string>)
    ensures fresh(cells) && cells.Length0 == matrix.Length0 && cells.Length1 == matrix.Length1
    ensures forall i, j :: 0 <= i < matrix.Length0 && 0 <= j < matrix.Length1 ==> cells[i, j] == FloatText(matrix[i, j])
  {
    cells := new string[matrix.Length0, matrix.Length1]((i, j) => "");
    for i := 0 to matrix.Length0
      invariant forall a, b :: 0 <= a < i && 0 <= b < matrix.Length1 ==> cells[a, b] == FloatText(matrix[a, b])
    {
      for j := 0 to matrix.Length1
        invariant forall a, b :: 0 <= a < matrix.Length0 && 0 <= b < matrix.Length1 && (a < i || (a == i && b < j)) ==>
          cells[a, b] == FloatText(matrix[a, b])
      {
        cells[i, j] := FloatText(matrix[i, j]);
      }
    }
  }

  /** The body of the try: a cell that still reads as a float becomes
      "round(float) (round(percentage))"; any other cell raises and is skipped. */
  function Annotated(s: string, percentage: real): string {
    match ParseFloatText(s)
    case Some(v) => Entry(Text.IntToString(Text.RoundHalfEven(v as real)), Text.RoundHalfEven(percentage))
    case None => s
  }

  /** No two positions point to the same cell. */
  predicate DistinctPositions(positions: seq<(int, int)>, size: nat) {
    forall a, b :: 0 <= a < b < |positions| ==> Wrapped(positions[a], size) != Wrapped(positions[b], size)
  }

  /** None of the first n positions points to cell (i, j). */
  predicate Unwritten(positions: seq<(int, int)>, n: nat, size: nat, i: int, j: int)
    requires n <= |positions|
  {
    forall k :: 0 <= k < n ==> Wrapped(positions[k], size) != (i, j)
  }

  /** The percentage loop over the pair positions, in pair order. */
  method AddPercentages(cells: array2<string>, positions: seq<(int, int)>, percentages: seq<real>)
    requires cells.Length0 == cells.Length1 && |positions| == |percentages|
    requires forall k :: 0 <= k < |positions| ==> InRange(positions[k], cells.Length0)
    modifies cells
    ensures forall i, j | 0 <= i < cells.Length0 && 0 <= j < cells.Length1 ::
      Unwritten(positions, |positions|, cells.Length0, i, j) ==> cells[i, j] == old(cells[i, j])
    ensures DistinctPositions(positions, cells.Length0) ==>
      forall k | 0 <= k < |positions| && InRange(positions[k], cells.Length0) ::
        var r, c := Wrap(positions[k].0, cells.Length0), Wrap(positions[k].1, cells.Length0);
        cells[r, c] == Annotated(old(cells[r, c]), percentages[k])
  {
    var size := cells.Length0;
    ghost var distinct := DistinctPositions(positions, size);
    for k := 0 to |positions|
      invariant forall i, j :: 0 <= i < size && 0 <= j < size && Unwritten(positions, k, size, i, j) ==> cells[i, j] == old(cells[i, j])
      invariant distinct ==>
        forall h | 0 <= h < k && InRange(positions[h], size) ::
          var r, c := Wrap(positions[h].0, size), Wrap(positions[h].1, size);
          cells[r, c] == Annotated(old(cells[r, c]), percentages[h])
    {
      var r, c := Wrap(positions[k].0, size), Wrap(positions[k].1, size);
      assert distinct ==> Unwritten(positions, k, size, r, c);
      var value := cells[r, c];
      match ParseFloatText(value)
      case Some(_) =>
        cells[r, c] := Annotated(value, percentages[k]);
      case None =>
    }
  }

  // ------------------------------------------------------------------ the complete table

  /** No label is listed twice. */
  predicate DistinctLabels(labels: seq<string>) {
    forall i, j :: 0 <= i < j < |labels| ==> labels[i] != labels[j]
  }

  /** The diagonal entry of each label is the share of its exclusive rows. */
  lemma DiagonalAt(t: Table, labels: seq<string>, i: nat)
    requires Present(t, labels) && i < |labels|
    requires forall k :: 0 <= k < |labels| ==> |WithOne(t, labels[k])| > 0
    ensures forall k :: 0 <= k < |labels| ==> DiagonalCounts(t, labels)[k].1 > 0
    ensures Shares(DiagonalCounts(t, labels))[i] == Share(|OnlyLabel(t, labels, i)|, |WithOne(t, labels[i])|)
  {
    var cs := DiagonalCounts(t, labels);
    assert forall k :: 0 <= k < |labels| ==> cs[k].1 == |WithOne(t, labels[k])|;
    SharesAt(cs, i);
  }

  /** Cell (i, j) of the left side: the exclusive share of label i on the diagonal, "-" elsewhere. */
  function LeftCell(t: Table, labels: seq<string>, i: nat, j: nat): string
    requires Present(t, labels) && i < |labels| && j < |labels|
    requires |WithOne(t, labels[i])| > 0
  {
    if i == j then Share(|OnlyLabel(t, labels, i)|, |WithOne(t, labels[i])|) else "-"
  }

  /** The cell of a pair: "-" when no row has exactly that pair, otherwise
      the count and its share of the rows with the pair's first label. */
  function PairText(count: nat, first: nat): string
    requires first > 0
  {
    if count == 0 then "-" else Share(count, first)
  }

  /** The position of the cell the pair loop writes for each pair, in pair order. */
  function Positions(labels: seq<string>): (ps: seq<(int, int)>)
    ensures |ps| == |Pairs(|labels|)|
  {
    var pairs := Pairs(|labels|);
    seq(|pairs|, k requires 0 <= k < |pairs| => Position(labels, pairs[k]))
  }

  /** Every written position lies inside the pairs×pairs matrix: the first
      index is at most n - 2 and the second between -1 and 2n - 4. */
  lemma PositionInRange(labels: seq<string>, p: (nat, nat))
    requires p.0 < p.1 < |labels|
    ensures InRange(Position(labels, p), |Pairs(|labels|)|)
  {
    var n, m := |labels|, |Pairs(|labels|)|;
    PairsSize(n);
    PairCountBounds(n, m);
    var x, y := IndexOf(labels, labels[p.0]), IndexOf(labels, labels[p.1]);
    assert x <= p.0 && y <= p.1;
  }

  /** With n·(n-1) = 2m and n >= 2, the indices n - 2 and 2n - 4 both fit below m. */
  lemma PairCountBounds(n: int, m: int)
    requires n >= 2 && 2 * m == n * (n - 1)
    ensures n - 1 <= m && 2 * n - 4 < m
  {
    var q := n - 2;
    assert n * (n - 1) == q * q + 3 * q + 2;
    assert q * q >= q by {
      if q > 0 {
        assert q * q == q * (q - 1) + q;
        assert q * (q - 1) >= 0;
      }
    }
  }

  lemma PositionsInRange(labels: seq<string>)
    ensures forall k :: 0 <= k < |Positions(labels)| ==> InRange(Positions(labels)[k], |Pairs(|labels|)|)
  {
    var pairs := Pairs(|labels|);
    forall k | 0 <= k < |pairs|
      ensures InRange(Positions(labels)[k], |pairs|)
    {
      PositionInRange(labels, pairs[k]);
    }
  }

  /** The text a written count ends as: str() of the float, zero replaced by
      "-", then annotated with its percentage when it still reads as a float. */
  lemma PairTextOf(x: string, count: nat, first: nat, percentage: real)
    requires first > 0 && percentage == Percent(count, first)
    requires x == Annotated(Replaced(FloatText(count), "0.0", "-"), percentage)
    ensures x == PairText(count, first)
  {
    ReplacedFloatText(count);
    if count == 0 {
      AnnotatedDash(percentage);
    } else {
      AnnotatedCount(count, percentage);
    }
  }

  /** Replacing "0.0" by "-" changes exactly the zero counts. */
  lemma ReplacedFloatText(count: nat)
    ensures Replaced(FloatText(count), "0.0", "-") == if count == 0 then "-" else FloatText(count)
  {
    FloatTextZero(count);
  }

  lemma AnnotatedDash(percentage: real)
    ensures Annotated("-", percentage) == "-"
  {
    assert ParseFloatText("-") == None;
  }

  /** A count still reading as a float becomes its entry with the whole percentage. */
  lemma AnnotatedCount(count: nat, percentage: real)
    ensures Annotated(FloatText(count), percentage) == Entry(Text.NatToString(count), Text.RoundHalfEven(percentage))
  {
    ParseFloatTextOf(count);
    Text.RoundHalfEvenUnique(count as real, count);
    assert Text.IntToString(count) == Text.NatToString(count);
  }

  /** The frame steps of the right side on a size×size matrix: write each
      count at its position, str() every cell, replace "0.0" by "-", then
      annotate each written cell with its percentage. */
  method PairFrame(values: seq<nat>, positions: seq<(int, int)>, percentages: seq<real>, size: nat)
    returns (right: array2<string>)
    requires |positions| == |values| && |percentages| == |values|
    requires forall k :: 0 <= k < |positions| ==> InRange(positions[k], size)
    ensures fresh(right) && right.Length0 == size && right.Length1 == size
    ensures forall i, j | 0 <= i < size && 0 <= j < size ::
      Unwritten(positions, |positions|, size, i, j) ==> right[i, j] == "-"
    ensures DistinctPositions(positions, size) ==>
      forall k | 0 <= k < |positions| && InRange(positions[k], size) ::
        right[Wrap(positions[k].0, size), Wrap(positions[k].1, size)] ==
          Annotated(Replaced(FloatText(values[k]), "0.0", "-"), percentages[k])
  {
    var matrix := PairMatrix(values, positions, size);
    right := FloatTexts(matrix);
    ReplaceAll(right, "0.0", "-");
    label replaced:
    AddPercentages(right, positions, percentages);
    forall i, j | 0 <= i < size && 0 <= j < size && Unwritten(positions, |positions|, size, i, j)
      ensures right[i, j] == "-"
    {
      WrittenNowhere(values, positions, size, i, j);
      FloatTextZero(0);
    }
    if DistinctPositions(positions, size) {
      forall k | 0 <= k < |positions| && InRange(positions[k], size)
        ensures right[Wrap(positions[k].0, size), Wrap(positions[k].1, size)] ==
          Annotated(Replaced(FloatText(values[k]), "0.0", "-"), percentages[k])
      {
        var r, c := Wrap(positions[k].0, size), Wrap(positions[k].1, size);
        assert matrix[r, c] == values[k] by {
          WrittenAt(values, positions, size, k);
        }
        assert old@replaced(right[r, c]) == Replaced(FloatText(values[k]), "0.0", "-");
      }
    }
  }

  /** The right side (combination_df without "all labels"): the count of each
      pair written at its position, zeros shown as "-", each written count
      followed by its percentage. */
  method RightSide(t: Table, labels: seq<string>) returns (right: array2<string>, positions: seq<(int, int)>)
    requires Present(t, labels)
    requires forall k :: 0 <= k < |labels| ==> |WithOne(t, labels[k])| > 0
    ensures positions == Positions(labels)
    ensures fresh(right) && right.Length0 == |Pairs(|labels|)| && right.Length1 == right.Length0
    ensures forall i, j | 0 <= i < right.Length0 && 0 <= j < right.Length1 ::
      Unwritten(positions, |positions|, right.Length0, i, j) ==> right[i, j] == "-"
    ensures DistinctPositions(positions, right.Length0) ==>
      forall k | 0 <= k < |positions| && InRange(positions[k], right.Length0) ::
        var p := Pairs(|labels|)[k];
        right[Wrap(positions[k].0, right.Length0), Wrap(positions[k].1, right.Length0)] ==
          PairText(|OnlyPair(t, labels, p.0, p.1)|, |WithOne(t, labels[p.0])|)
  {
    var pairs;
    pairs, positions := Combinations(labels);
    assert positions == Positions(labels);
    forall k | 0 <= k < |pairs|
      ensures FirstSizes(t, labels, pairs)[k] > 0
    {
      assert FirstSizes(t, labels, pairs)[k] == |WithOne(t, labels[pairs[k].0])|;
    }
    var values, percentages := PairCounts(t, labels, pairs);
    PositionsInRange(labels);
    right := PairFrame(values, positions, percentages, |pairs|);
    if DistinctPositions(positions, |pairs|) {
      forall k | 0 <= k < |positions| && InRange(positions[k], |pairs|)
        ensures right[Wrap(positions[k].0, |pairs|), Wrap(positions[k].1, |pairs|)] ==
          PairText(|OnlyPair(t, labels, pairs[k].0, pairs[k].1)|, |WithOne(t, labels[pairs[k].0])|)
      {
        var first := |WithOne(t, labels[pairs[k].0])|;
        var x := right[Wrap(positions[k].0, |pairs|), Wrap(positions[k].1, |pairs|)];
        assert x == Annotated(Replaced(FloatText(values[k]), "0.0", "-"), percentages[k]);
        assert values[k] == |OnlyPair(t, labels, pairs[k].0, pairs[k].1)|;
        assert percentages[k] == Percent(values[k], first) by {
          assert FirstSizes(t, labels, pairs)[k] == first;
        }
        PairTextOf(x, values[k], first, percentages[k]);
      }
    }
  }

  /** The cells of the three-label right side: row a holds "a and b only" in
      its first column and "a and c only" in its second, row b holds
      "b and c only" in its third, and every other cell is "-". */
  function RightCell(t: Table, labels: seq<string>, i: nat, j: nat): string
    requires Present(t, labels) && |labels| == 3
    requires forall k :: 0 <= k < 3 ==> |WithOne(t, labels[k])| > 0
  {
    if i == 0 && j == 0 then PairText(|OnlyPair(t, labels, 0, 1)|, |WithOne(t, labels[0])|)
    else if i == 0 && j == 1 then PairText(|OnlyPair(t, labels, 0, 2)|, |WithOne(t, labels[0])|)
    else if i == 1 && j == 2 then PairText(|OnlyPair(t, labels, 1, 2)|, |WithOne(t, labels[1])|)
    else "-"
  }

  /** Three different labels write their pairs at (0, 0), (0, 1) and (1, 2). */
  lemma PositionsOfThree(labels: seq<string>)
    requires |labels| == 3 && DistinctLabels(labels)
    ensures Pairs(3) == [(0, 1), (0, 2), (1, 2)]
    ensures Positions(labels) == [(0, 0), (0, 1), (1, 2)]
  {
    PairsOfThree();
    IndexOfDistinct(labels, 0);
    IndexOfDistinct(labels, 1);
    IndexOfDistinct(labels, 2);
  }

  lemma RightOfThree(t: Table, labels: seq<string>, right: array2<string>, positions: seq<(int, int)>)
    requires Present(t, labels) && |labels| == 3 && DistinctLabels(labels)
    requires forall k :: 0 <= k < 3 ==> |WithOne(t, labels[k])| > 0
    requires right.Length0 == 3 && right.Length1 == 3
    requires positions == Positions(labels)
    requires forall i, j | 0 <= i < right.Length0 && 0 <= j < right.Length1 ::
      Unwritten(positions, |positions|, right.Length0, i, j) ==> right[i, j] == "-"
    requires DistinctPositions(positions, right.Length0) ==>
      forall k | 0 <= k < |positions| && InRange(positions[k], right.Length0) ::
        var p := Pairs(|labels|)[k];
        right[Wrap(positions[k].0, right.Length0), Wrap(positions[k].1, right.Length0)] ==
          PairText(|OnlyPair(t, labels, p.0, p.1)|, |WithOne(t, labels[p.0])|)
    ensures forall i, j :: 0 <= i < 3 && 0 <= j < 3 ==> Cells(right)[i][j] == RightCell(t, labels, i, j)
  {
    PositionsOfThree(labels);
    var ps := Positions(labels);
    WrittenOfThree();
    assert right[0, 0] == RightCell(t, labels, 0, 0) by {
      assert ps[0] == (0, 0) && Pairs(|labels|)[0] == (0, 1);
    }
    assert right[0, 1] == RightCell(t, labels, 0, 1) by {
      assert ps[1] == (0, 1) && Pairs(|labels|)[1] == (0, 2);
    }
    assert right[1, 2] == RightCell(t, labels, 1, 2) by {
      assert ps[2] == (1, 2) && Pairs(|labels|)[2] == (1, 2);
    }
    forall i, j | 0 <= i < 3 && 0 <= j < 3 && !((i == 0 && j == 0) || (i == 0 && j == 1) || (i == 1 && j == 2))
      ensures right[i, j] == RightCell(t, labels, i, j)
    {
      UnwrittenOfThree(i, j);
    }
    assert forall i, j :: 0 <= i < 3 && 0 <= j < 3 ==> right[i, j] == RightCell(t, labels, i, j);
  }

  /** The three written positions are different cells of the 3×3 matrix. */
  lemma WrittenOfThree()
    ensures DistinctPositions([(0, 0), (0, 1), (1, 2)], 3)
    ensures forall k :: 0 <= k < 3 ==> InRange([(0, 0), (0, 1), (1, 2)][k], 3)
  {
  }

  lemma UnwrittenOfThree(i: int, j: int)
    requires !((i == 0 && j == 0) || (i == 0 && j == 1) || (i == 1 && j == 2))
    ensures Unwritten([(0, 0), (0, 1), (1, 2)], 3, 3, i, j)
  {
  }

  /** Filtering the rows with the first label by each further label being 1 leaves the rows with every label. */
  lemma AllLabelsByFilters(t: Table, labels: seq<string>)
    requires Present(t, labels) && |labels| > 0
    ensures Present(t, labels[1..])
    ensures Seqs.Filter(WithOne(t, labels[0]), AllAre(t, labels[1..], 1.0)) == AllLabels(t, labels)
  {
    assert forall l :: l in labels <==> l == labels[0] || l in labels[1..];
    Seqs.FilterTwice(t.rows, Is(t, labels[0], 1.0), AllAre(t, labels[1..], 1.0), AllAre(t, labels, 1.0));
  }

  /** The columns of the complete table: "<label>_only" for each label,
      "<a> and <b> only" for each pair in loop order, then "all labels". */
  function OverlapColumns(labels: seq<string>): (names: seq<string>)
    ensures |names| == |labels| + |Pairs(|labels|)| + 1
  {
    var pairs := Pairs(|labels|);
    var only := seq(|labels|, k requires 0 <= k < |labels| => labels[k] + "_only");
    var combinationColumns := seq(|pairs|, k requires 0 <= k < |pairs| => labels[pairs[k].0] + " and " + labels[pairs[k].1] + " only");
    only + combinationColumns + ["all labels"]
  }

  lemma ColumnsOfThree(labels: seq<string>)
    requires |labels| == 3
    ensures OverlapColumns(labels) == [labels[0] + "_only", labels[1] + "_only", labels[2] + "_only",
      labels[0] + " and " + labels[1] + " only", labels[0] + " and " + labels[2] + " only",
      labels[1] + " and " + labels[2] + " only", "all labels"]
  {
    PairsOfThree();
  }

  /** An n×n frame of text held as its rows. */
  predicate Square(cells: seq<seq<string>>, n: nat) {
    |cells| == n && forall i :: 0 <= i < n ==> |cells[i]| == n
  }

  /** The values of a frame, row by row. */
  function Cells(m: array2<string>): (cells: seq<seq<string>>)
    reads m
    ensures |cells| == m.Length0
    ensures forall i :: 0 <= i < m.Length0 ==> |cells[i]| == m.Length1
    ensures forall i, j :: 0 <= i < m.Length0 && 0 <= j < m.Length1 ==> cells[i][j] == m[i, j]
  {
    seq(m.Length0, i requires 0 <= i < m.Length0 reads m =>
      seq(m.Length1, j requires 0 <= j < m.Length1 reads m => m[i, j]))
  }

  /** pd.concat([left_side, combination_df], axis=1): one row per label, the
      left cells, then the right cells, then the "all labels" text. */
  function Joined(labels: seq<string>, left: seq<seq<string>>, right: seq<seq<string>>, all: string): (rows: seq<Row>)
    requires Square(left, |labels|) && Square(right, |labels|)
    ensures |rows| == |labels|
    ensures forall i :: 0 <= i < |labels| ==> rows[i].key == Str(labels[i]) && |rows[i].cells| == 2 * |labels| + 1
    ensures forall i, j :: 0 <= i < |labels| && 0 <= j < |labels| ==>
      rows[i].cells[j] == Str(left[i][j]) && rows[i].cells[|labels| + j] == Str(right[i][j])
    ensures forall i :: 0 <= i < |labels| ==> rows[i].cells[2 * |labels|] == Str(all)
  {
    var n := |labels|;
    seq(n, i requires 0 <= i < n =>
      Row(Str(labels[i]), seq(2 * n + 1, j requires 0 <= j < 2 * n + 1 =>
        if j < n then Str(left[i][j]) else if j < 2 * n then Str(right[i][j - n]) else Str(all))))
  }

  /** Both sides of the table as their cells: the left side from the diagonal
      entries, the right side from the pair counts. */
  method Frames(t: Table, labels: seq<string>, diagonal: seq<string>) returns (left: seq<seq<string>>, right: seq<seq<string>>)
    requires Present(t, labels) && |diagonal| == |labels|
    requires forall k :: 0 <= k < |labels| ==> |WithOne(t, labels[k])| > 0
    requires forall k :: 0 <= k < |labels| ==> diagonal[k] == Share(|OnlyLabel(t, labels, k)|, |WithOne(t, labels[k])|)
    ensures Square(left, |labels|) && Square(right, |Pairs(|labels|)|)
    ensures forall i, j :: 0 <= i < |labels| && 0 <= j < |labels| ==> left[i][j] == LeftCell(t, labels, i, j)
    ensures |labels| == 3 && DistinctLabels(labels) ==>
      forall i, j :: 0 <= i < 3 && 0 <= j < 3 ==> right[i][j] == RightCell(t, labels, i, j)
  {
    var n := |labels|;
    var leftSide := LeftSide(diagonal);
    left := Cells(leftSide);
    assert forall i, j :: 0 <= i < |labels| && 0 <= j < |labels| ==> left[i][j] == LeftCell(t, labels, i, j);
    var rightSide, positions := RightSide(t, labels);
    right := Cells(rightSide);
    if n == 3 && DistinctLabels(labels) {
      PairsOfThree();
      RightOfThree(t, labels, rightSide, positions);
    }
  }

  /** label_overlap_table: the exclusive count of each label, of each pair
      of labels and of all labels, each with its percentage. The pair matrix
      has one row per pair, so setting its index to the labels succeeds only
      for three labels. */
  method LabelOverlapTable(t: Table, labels: seq<string>) returns (r: Result<Table>)
    ensures Missing(t.names, labels).Some? ==> r == Fail(KeyError(Missing(t.names, labels).value))
    ensures Missing(t.names, labels).None? && (exists k :: 0 <= k < |labels| && WithOne(t, labels[k]) == []) ==>
      r == Fail(ZeroDivision)
    ensures labels == [] ==> r == Fail(IndexError)
    ensures r.Ok? <==>
      Missing(t.names, labels).None? && |labels| == 3 && forall k :: 0 <= k < |labels| ==> |WithOne(t, labels[k])| > 0
    ensures (&& Missing(t.names, labels).None?
             && (forall k :: 0 <= k < |labels| ==> |WithOne(t, labels[k])| > 0)
             && |labels| != 0 && |labels| != 3) ==> r == Fail(LengthMismatch)
    ensures r.Ok? ==> Present(t, labels) && OverlapOfThree(t, labels, r.value)
  {
    var diagonal := DiagonalEntries(t, labels);
    if diagonal.Fail? {
      return Fail(diagonal.error);
    }
    var n := |labels|;
    var leftCells, rightCells := Frames(t, labels, diagonal.value);
    var names := OverlapColumns(labels);
    if n == 0 {
      return Fail(IndexError);
    }
    var all := AllLabelsEntry(t, labels);
    PairsSize(n);
    if |rightCells| != n {
      return Fail(LengthMismatch);
    }
    assert n == 3;
    OverlapRows(t, labels, leftCells, rightCells, all);
    r := Ok(Table(names, Joined(labels, leftCells, rightCells, all)));
  }

  /** The "all labels" entry: the rows with the first label, filtered by
      each further label being 1, as a share of the rows with the first label. */
  method AllLabelsEntry(t: Table, labels: seq<string>) returns (all: string)
    requires Present(t, labels) && |labels| > 0 && |WithOne(t, labels[0])| > 0
    ensures all == Share(|AllLabels(t, labels)|, |WithOne(t, labels[0])|)
  {
    var recordsMeetingAllLabels := KeepAll(t, WithOne(t, labels[0]), labels[1..], 1.0);
    if recordsMeetingAllLabels.Fail? {
      assert false;
    }
    AllLabelsByFilters(t, labels);
    all := Share(|recordsMeetingAllLabels.value|, |WithOne(t, labels[0])|);
  }

  /** The table of three labels: the column names, one row per label, the
      diagonal of exclusive entries, the pair cells when no label repeats, and
      the "all labels" entry in every row. */
  ghost predicate OverlapOfThree(t: Table, labels: seq<string>, table: Table)
    requires Present(t, labels) && |labels| == 3
    requires forall k :: 0 <= k < 3 ==> |WithOne(t, labels[k])| > 0
  {
    && table.names == [labels[0] + "_only", labels[1] + "_only", labels[2] + "_only",
         labels[0] + " and " + labels[1] + " only", labels[0] + " and " + labels[2] + " only",
         labels[1] + " and " + labels[2] + " only", "all labels"]
    && |table.rows| == 3
    && (forall i :: 0 <= i < 3 ==> table.rows[i].key == Str(labels[i]) && |table.rows[i].cells| == 7)
    && (forall i, j :: 0 <= i < 3 && 0 <= j < 3 ==> table.rows[i].cells[j] == Str(LeftCell(t, labels, i, j)))
    && (forall i :: 0 <= i < 3 ==> table.rows[i].cells[6] == Str(Share(|AllLabels(t, labels)|, |WithOne(t, labels[0])|)))
    && (DistinctLabels(labels) ==>
         forall i, j :: 0 <= i < 3 && 0 <= j < 3 ==> table.rows[i].cells[3 + j] == Str(RightCell(t, labels, i, j)))
  }

  /** Joining the cells of three labels gives their table. */
  lemma OverlapRows(t: Table, labels: seq<string>, left: seq<seq<string>>, right: seq<seq<string>>, all: string)
    requires Present(t, labels) && |labels| == 3
    requires forall k :: 0 <= k < 3 ==> |WithOne(t, labels[k])| > 0
    requires Square(left, 3) && Square(right, 3)
    requires forall i, j :: 0 <= i < 3 && 0 <= j < 3 ==> left[i][j] == LeftCell(t, labels, i, j)
    requires DistinctLabels(labels) ==> forall i, j :: 0 <= i < 3 && 0 <= j < 3 ==> right[i][j] == RightCell(t, labels, i, j)
    requires all == Share(|AllLabels(t, labels)|, |WithOne(t, labels[0])|)
    ensures OverlapOfThree(t, labels, Table(OverlapColumns(labels), Joined(labels, left, right, all)))
  {
    ColumnsOfThree(labels);
  }

}
