/** The labelling helpers of gamba/labels.py: marking the players above a
    percentile of one measure, and splitting a labelled table by label. */
module Labels {
  import opened Tables
  import Seqs

  // ------------------------------------------------------------------ top_split

  /** The name of the label column top_split adds. */
  function TopName(splitBy: string): string { "top_" + splitBy }

  /** 1 for a value strictly above the cutoff, 0 otherwise. */
  function TopLabel(x: real, cutoff: real): (v: Value)
    ensures v == Num(1.0) <==> x > cutoff
    ensures v == Num(0.0) <==> x <= cutoff
  {
    if x > cutoff then Num(1.0) else Num(0.0)
  }

  /** The label column for `values` split at their p-th percentile. */
  function TopLabels(values: seq<real>, p: real): (labels: seq<Value>)
    requires |values| > 0 && 0.0 <= p <= 100.0
    ensures |labels| == |values|
    ensures forall k :: 0 <= k < |values| ==>
      (labels[k] == Num(1.0) <==> values[k] > Seqs.Percentile(values, p))
    ensures forall k :: 0 <= k < |values| ==> labels[k] == Num(0.0) || labels[k] == Num(1.0)
  {
    var cutoff := Seqs.Percentile(values, p);
    seq(|values|, k requires 0 <= k < |values| => TopLabel(values[k], cutoff))
  }

  /** The numbers of the split_by column, or why np.percentile cannot take them. */
  function SplitValues(t: Table, splitBy: string): (r: Result<seq<real>>)
    requires Valid(t)
    ensures splitBy !in t.names ==> r == Fail(KeyError(splitBy))
    ensures splitBy in t.names ==> (r.Ok? <==> AllNumbers(Column(t, splitBy)))
    ensures splitBy in t.names && r.Fail? ==> r.error == NotNumeric(splitBy)
    ensures r.Ok? ==> splitBy in t.names && r.value == Numbers(Column(t, splitBy))
  {
    if splitBy !in t.names then Fail(KeyError(splitBy))
    else if !AllNumbers(Column(t, splitBy)) then Fail(NotNumeric(splitBy))
    else Ok(Numbers(Column(t, splitBy)))
  }

  /** top_split: a copy of the table with a column "top_<split_by>" that holds 1
      exactly for the rows whose split_by value is strictly above the
      percentile cutoff and 0 for the others. The copy is first given the
      column filled with 0s, then the rows above the cutoff are set to 1.
      np.percentile looks the column up, then checks the percentage, and only
      then reads the values. */
  method TopSplit(t: Table, splitBy: string, percentile: real) returns (r: Result<Table>)
    requires Valid(t)
    ensures splitBy !in t.names ==> r == Fail(KeyError(splitBy))
    ensures splitBy in t.names && !(0.0 <= percentile <= 100.0) ==> r == Fail(PercentileRange)
    ensures splitBy in t.names && 0.0 <= percentile <= 100.0 && !AllNumbers(Column(t, splitBy)) ==>
      r == Fail(NotNumeric(splitBy))
    ensures SplitValues(t, splitBy).Ok? && 0.0 <= percentile <= 100.0 && t.rows == [] ==> r == Fail(IndexError)
    ensures r.Ok? <==> SplitValues(t, splitBy).Ok? && 0.0 <= percentile <= 100.0 && t.rows != []
    ensures r.Ok? ==>
      var values := SplitValues(t, splitBy).value;
      var labelled := r.value;
      && Valid(labelled)
      && labelled.names == (if TopName(splitBy) in t.names then t.names else t.names + [TopName(splitBy)])
      && |labelled.rows| == |t.rows|
      && (forall k :: 0 <= k < |t.rows| ==> labelled.rows[k].key == t.rows[k].key)
      && Column(labelled, TopName(splitBy)) == TopLabels(values, percentile)
      && (forall c :: c in t.names && c != TopName(splitBy) ==> Column(labelled, c) == Column(t, c))
  {
    if splitBy in t.names && !(0.0 <= percentile <= 100.0) {
      return Fail(PercentileRange);
    }
    var values :- SplitValues(t, splitBy);
    if t.rows == [] {
      return Fail(IndexError);
    }
    var cutoff := Seqs.Percentile(values, percentile);
    var columnName := TopName(splitBy);
    var labelled := t;
    labelled := AddColumn(labelled, columnName, seq(|t.rows|, _ => Num(0.0)));
    var zeros := Column(labelled, columnName);
    var marked := seq(|zeros|, k requires 0 <= k < |zeros| => if values[k] > cutoff then Num(1.0) else zeros[k]);
    ghost var first := labelled;
    labelled := AddColumn(labelled, columnName, marked);
    assert marked == TopLabels(values, percentile);
    assert forall c :: c in t.names && c != columnName ==> Column(labelled, c) == Column(first, c) == Column(t, c);
    r := Ok(labelled);
  }

  /** At the 100th percentile the cutoff is the largest value, so no row is labelled 1. */
  lemma TopHundredLabelsNone(values: seq<real>)
    requires |values| > 0
    ensures forall k :: 0 <= k < |values| ==> TopLabels(values, 100.0)[k] == Num(0.0)
  {
    Seqs.PercentileHundredIsMax(values);
    forall k | 0 <= k < |values|
      ensures TopLabels(values, 100.0)[k] == Num(0.0)
    {
      assert values[k] in values;
    }
  }

  /** Labelling is monotone: a value at least that of a labelled row is labelled too. */
  lemma TopMonotone(values: seq<real>, p: real, i: nat, j: nat)
    requires |values| > 0 && 0.0 <= p <= 100.0
    requires i < |values| && j < |values|
    requires TopLabels(values, p)[i] == Num(1.0) && values[i] <= values[j]
    ensures TopLabels(values, p)[j] == Num(1.0)
  {
  }

  /** A higher percentile labels no more rows: every row labelled at q is labelled at p <= q. */
  lemma TopNested(values: seq<real>, p: real, q: real, k: nat)
    requires |values| > 0 && 0.0 <= p <= q <= 100.0 && k < |values|
    requires TopLabels(values, q)[k] == Num(1.0)
    ensures TopLabels(values, p)[k] == Num(1.0)
  {
    Seqs.PercentileMonotone(values, p, q);
  }

  /** At the 0th percentile the cutoff is the smallest value: exactly the
      values above the minimum are labelled 1. */
  lemma TopZeroLabelsAboveMin(values: seq<real>, k: nat)
    requires |values| > 0 && k < |values|
    ensures TopLabels(values, 0.0)[k] == Num(1.0) <==> values[k] > Seqs.Sort(values)[0]
  {
    Seqs.PercentileZeroIsMin(values);
  }

  // ------------------------------------------------------------------ get_labelled_groups

  /** The rows whose cell in column position `i` is the number `tag`. */
  function HasLabel(i: nat, tag: real): Row -> bool {
    (row: Row) => i < |row.cells| && row.cells[i] == Num(tag)
  }

  /** labelled_measures_table[labelled_measures_table[labelname] == label]:
      the rows holding `tag`, in table order, with their index labels. */
  function Group(t: Table, labelName: string, tag: real): (g: Table)
    requires labelName in t.names
    ensures g.names == t.names
  {
    Table(t.names, Seqs.Filter(t.rows, HasLabel(IndexOf(t.names, labelName), tag)))
  }

  /** sorted(set(values)): the distinct labels in ascending order. */
  function GroupLabels(t: Table, labelName: string): seq<real>
    requires Valid(t) && labelName in t.names && AllNumbers(Column(t, labelName))
  {
    Seqs.Sort(Seqs.Distinct(Numbers(Column(t, labelName))))
  }

  /** get_labelled_groups: one group per distinct label, in ascending label order. */
  method GetLabelledGroups(t: Table, labelName: string) returns (r: Result<seq<Table>>)
    requires Valid(t)
    ensures labelName !in t.names ==> r == Fail(KeyError(labelName))
    ensures labelName in t.names ==> (r.Ok? <==> AllNumbers(Column(t, labelName)))
    ensures labelName in t.names && r.Fail? ==> r.error == NotNumeric(labelName)
    ensures r.Ok? ==> |r.value| == |GroupLabels(t, labelName)|
    ensures r.Ok? ==> forall g :: 0 <= g < |r.value| ==> r.value[g] == Group(t, labelName, GroupLabels(t, labelName)[g])
  {
    if labelName !in t.names {
      return Fail(KeyError(labelName));
    }
    var column := Column(t, labelName);
    if !AllNumbers(column) {
      return Fail(NotNumeric(labelName));
    }
    var labels := Seqs.Sort(Seqs.Distinct(Numbers(column)));
    var playerGroups: seq<Table> := [];
    for g := 0 to |labels|
      invariant |playerGroups| == g
      invariant forall h :: 0 <= h < g ==> playerGroups[h] == Group(t, labelName, labels[h])
    {
      var thisGroup := Group(t, labelName, labels[g]);
      playerGroups := playerGroups + [thisGroup];
    }
    r := Ok(playerGroups);
  }

  /** The labels are strictly ascending and are exactly the values of the column. */
  lemma GroupLabelsAscending(t: Table, labelName: string)
    requires Valid(t) && labelName in t.names && AllNumbers(Column(t, labelName))
    ensures var labels := GroupLabels(t, labelName);
      (forall i, j :: 0 <= i < j < |labels| ==> labels[i] < labels[j])
      && Seqs.Enumerates(labels, Numbers(Column(t, labelName)))
  {
    var d := Seqs.Distinct(Numbers(Column(t, labelName)));
    var labels := Seqs.Sort(d);
    forall i, j | 0 <= i < j < |labels|
      ensures labels[i] < labels[j]
    {
      if labels[i] == labels[j] {
        Seqs.TwiceInMultiset(labels, i, j);
        Seqs.DistinctOnce(d, labels[i]);
      }
    }
    forall x ensures x in labels <==> x in d {
      assert x in labels <==> x in multiset(labels);
      assert x in d <==> x in multiset(d);
    }
  }

  /** A row belongs to a group exactly when it is one of the table's rows and holds that group's label. */
  lemma GroupMembers(t: Table, labelName: string, tag: real, row: Row)
    requires Valid(t) && labelName in t.names
    ensures row in Group(t, labelName, tag).rows <==>
      row in t.rows && row.cells[IndexOf(t.names, labelName)] == Num(tag)
  {
    Seqs.FilterMembers(t.rows, HasLabel(IndexOf(t.names, labelName), tag));
    if row in t.rows {
      var k :| 0 <= k < |t.rows| && t.rows[k] == row;
      assert |row.cells| == |t.names|;
    }
  }

  /** Every row of the table lies in the group of its own label and in no other. */
  lemma GroupsPartition(t: Table, labelName: string, k: nat)
    requires Valid(t) && labelName in t.names && AllNumbers(Column(t, labelName)) && k < |t.rows|
    ensures var labels, x := GroupLabels(t, labelName), Numbers(Column(t, labelName))[k];
      && x in labels
      && forall g :: 0 <= g < |labels| ==> (t.rows[k] in Group(t, labelName, labels[g]).rows <==> labels[g] == x)
  {
    var labels, values := GroupLabels(t, labelName), Numbers(Column(t, labelName));
    GroupLabelsAscending(t, labelName);
    assert values[k] in values;
    forall g | 0 <= g < |labels|
      ensures t.rows[k] in Group(t, labelName, labels[g]).rows <==> labels[g] == values[k]
    {
      GroupMembers(t, labelName, labels[g], t.rows[k]);
      assert Column(t, labelName)[k] == Num(values[k]);
    }
  }

  /** The group sizes add up to the number of rows: the groups cover the table and do not overlap. */
  lemma GroupSizesCoverTable(t: Table, labelName: string)
    requires Valid(t) && labelName in t.names && AllNumbers(Column(t, labelName))
    ensures SizeOfGroups(t, labelName, GroupLabels(t, labelName)) == |t.rows|
  {
    var labels, values := GroupLabels(t, labelName), Numbers(Column(t, labelName));
    GroupLabelsAscending(t, labelName);
    GroupSizesAreCounts(t, labelName, labels);
    Seqs.CountsCoverSequence(values, labels);
  }

  /** The total number of rows in the groups of `labels`. */
  function SizeOfGroups(t: Table, labelName: string, labels: seq<real>): nat
    requires labelName in t.names
  {
    if labels == [] then 0 else |Group(t, labelName, labels[0]).rows| + SizeOfGroups(t, labelName, labels[1..])
  }

  lemma {:induction false} GroupSizesAreCounts(t: Table, labelName: string, labels: seq<real>)
    requires Valid(t) && labelName in t.names && AllNumbers(Column(t, labelName))
    ensures SizeOfGroups(t, labelName, labels) == Seqs.SumCounts(Numbers(Column(t, labelName)), labels)
  {
    if labels != [] {
      GroupSizesAreCounts(t, labelName, labels[1..]);
      GroupSizeIsCount(t.rows, IndexOf(t.names, labelName), labels[0], Numbers(Column(t, labelName)));
    }
  }

  /** A group has as many rows as its label has occurrences in the column. */
  lemma {:induction false} GroupSizeIsCount(rows: seq<Row>, i: nat, tag: real, values: seq<real>)
    requires |values| == |rows|
    requires forall k :: 0 <= k < |rows| ==> i < |rows[k].cells| && rows[k].cells[i] == Num(values[k])
    ensures |Seqs.Filter(rows, HasLabel(i, tag))| == Seqs.Count(values, tag)
  {
    if rows != [] {
      GroupSizeIsCount(rows[1..], i, tag, values[1..]);
    }
  }
}
