/** The cohort-comparison tables of gamba/tests.py other than label_overlap_table:
    the descriptive mean/median table, the lower-triangular significance table
    shared by spearmans_r and calculate_walker_matrix, and add_tables. */
module Tests {
  import opened Tables
  import Seqs
  import Text

  // ---------------------------------------------------------- descriptive_table

  /** Series.mean of a numeric column; nan for an empty one. */
  function MeanCell(xs: seq<real>): Value {
    if xs == [] then NonFinite else Num(Seqs.Mean(xs))
  }

  /** Series.median of a numeric column; nan for an empty one. */
  function MedianCell(xs: seq<real>): Value {
    if xs == [] then NonFinite else Num(Seqs.Median(xs))
  }

  /** The measure columns: every column after the first. */
  function MeasureNames(t: Table): (names: seq<string>)
    ensures |names| == if |t.names| == 0 then 0 else |t.names| - 1
    ensures forall k :: 0 <= k < |names| ==> names[k] == t.names[k + 1]
  {
    if t.names == [] then [] else t.names[1..]
  }

  /** The row of the descriptive table for one measure column. */
  function Summary(t: Table, name: string): Row
    requires Valid(t) && name in t.names && AllNumbers(Column(t, name))
  {
    var xs := Numbers(Column(t, name));
    Row(Str(name), [MeanCell(xs), MedianCell(xs)])
  }

  /** The measure columns before position c all hold numbers only. */
  ghost predicate NumericBefore(t: Table, c: nat)
    requires Valid(t) && c <= |MeasureNames(t)|
  {
    forall k :: 0 <= k < c ==> AllNumbers(Column(t, MeasureNames(t)[k]))
  }

  lemma NumericStep(t: Table, c: nat)
    requires Valid(t) && c < |MeasureNames(t)|
    requires NumericBefore(t, c) && AllNumbers(Column(t, MeasureNames(t)[c]))
    ensures NumericBefore(t, c + 1)
  {
  }

  /** Measure column c is the first one, in table order, holding something other than a number. */
  ghost predicate FirstNonNumeric(t: Table, c: nat)
    requires Valid(t)
  {
    c < |MeasureNames(t)| && NumericBefore(t, c) && !AllNumbers(Column(t, MeasureNames(t)[c]))
  }

  /** descriptive_table without std and iqr: one row per measure column, in
      table order, keyed by the column's name and holding its mean and median.
      The first column whose cells are not all numbers stops it. */
  method DescriptiveTable(t: Table) returns (r: Result<Table>)
    requires Valid(t)
    ensures r.Ok? <==> NumericBefore(t, |MeasureNames(t)|)
    ensures r.Fail? ==> exists c: nat :: FirstNonNumeric(t, c) && r.error == NotNumeric(MeasureNames(t)[c])
    ensures r.Ok? ==> r.value.names == ["mean", "median"]
    ensures r.Ok? ==> |r.value.rows| == |MeasureNames(t)|
    ensures r.Ok? ==> forall k :: 0 <= k < |MeasureNames(t)| ==>
      r.value.rows[k] == Summary(t, MeasureNames(t)[k])
  {
    var rows: seq<Row> := [];
    var i := 0;
    while i < |MeasureNames(t)|
      invariant 0 <= i <= |MeasureNames(t)|
      invariant NumericBefore(t, i)
      invariant |rows| == i
      invariant forall k :: 0 <= k < i ==> rows[k] == Summary(t, MeasureNames(t)[k])
    {
      var name := MeasureNames(t)[i];
      if !AllNumbers(Column(t, name)) {
        assert FirstNonNumeric(t, i);
        return Fail(NotNumeric(name));
      }
      NumericStep(t, i);
      rows := rows + [Summary(t, name)];
      i := i + 1;
    }
    r := Ok(Table(["mean", "median"], rows));
  }

  /** The mean and the median of a measure lie within any bounds of its values. */
  lemma SummaryWithin(xs: seq<real>, lo: real, hi: real)
    requires forall i :: 0 <= i < |xs| ==> lo <= xs[i] <= hi
    ensures MeanCell(xs).Num? ==> lo <= MeanCell(xs).x <= hi
    ensures MedianCell(xs).Num? ==> lo <= MedianCell(xs).x <= hi
    ensures MeanCell(xs).Num? <==> xs != []
    ensures MedianCell(xs).Num? <==> xs != []
  {
    if xs != [] {
      Seqs.MeanBounds(xs, lo, hi);
      Seqs.MedianBounds(xs);
      var s := Seqs.Sort(xs);
      assert s[0] in multiset(xs) && s[|s| - 1] in multiset(xs) by {
        assert s[0] in multiset(s) && s[|s| - 1] in multiset(s);
      }
    }
  }

  // ------------------------------------------- significance tables (lower triangle)

  /** A cell of the coefficient frame once np.tril, replace(0, "") and
      fill_diagonal have run: a number or a string. */
  datatype Element = Number(x: real) | Word(s: string)

  /** A cell of the formatted table: a string ("-" or ""), the text
      str(value) followed by a significance marker, or the rounded number. */
  datatype Cell = Literal(s: string) | Marked(value: real, marker: string) | Plain(value: real)

  /** The rendering of a lower-triangle coefficient with its p-value:
      "**" below 0.01, "*" below 0.05, otherwise the bare rounded number. */
  function Significance(coef: real, p: real): (c: Cell)
    ensures !c.Literal?
    ensures c.Marked? <==> p < 0.05
    ensures c.Marked? ==> (c.marker == "**" <==> p < 0.01)
    ensures c.Marked? ==> (c.marker == "*" <==> 0.01 <= p)
    ensures coef - 0.005 <= c.value <= coef + 0.005
  {
    if p < 0.01 then Marked(Text.Round2(coef), "**")
    else if p < 0.05 then Marked(Text.Round2(coef), "*")
    else Plain(Text.Round2(coef))
  }

  /** The number of asterisks a cell carries. */
  function Stars(c: Cell): nat {
    if c.Marked? then |c.marker| else 0
  }

  /** A smaller p-value never earns fewer asterisks. */
  lemma StarsMonotone(coef: real, p: real, q: real)
    requires p <= q
    ensures Stars(Significance(coef, p)) >= Stars(Significance(coef, q))
    ensures Stars(Significance(coef, p)) <= 2
  {
  }

  /** The cell at row i, column j of the formatted table, for the coefficient
      and p-value the statistic produced for that pair. */
  function Formatted(i: nat, j: nat, coef: real, p: real): (c: Cell)
    ensures i == j ==> c == Literal("-")
    ensures i < j ==> c == Literal("")
    ensures i > j ==> (c == Literal("") <==> coef == 0.0)
    ensures i > j && coef != 0.0 ==> c == Significance(coef, p)
  {
    if i == j then Literal("-")
    else if i < j || coef == 0.0 then Literal("")
    else Significance(coef, p)
  }

  /** np.tril(m, -1): a copy with the diagonal and everything above it zeroed. */
  method StrictLower(m: array2<real>) returns (t: array2<real>)
    ensures fresh(t) && t.Length0 == m.Length0 && t.Length1 == m.Length1
    ensures forall i, j :: 0 <= i < t.Length0 && 0 <= j < t.Length1 ==>
      t[i, j] == if j < i then m[i, j] else 0.0
  {
    t := new real[m.Length0, m.Length1];
    var i := 0;
    while i < m.Length0
      invariant 0 <= i <= m.Length0
      invariant forall r, c :: 0 <= r < i && 0 <= c < m.Length1 ==>
        t[r, c] == if c < r then m[r, c] else 0.0
    {
      var j := 0;
      while j < m.Length1
        invariant 0 <= j <= m.Length1
        invariant forall r, c :: 0 <= r < i && 0 <= c < m.Length1 ==>
          t[r, c] == if c < r then m[r, c] else 0.0
        invariant forall c :: 0 <= c < j ==> t[i, c] == if c < i then m[i, c] else 0.0
      {
        t[i, j] := if j < i then m[i, j] else 0.0;
        j := j + 1;
      }
      i := i + 1;
    }
  }

  /** pd.DataFrame(matrix): the numbers as frame cells. */
  method Elements(m: array2<real>) returns (f: array2<Element>)
    ensures fresh(f) && f.Length0 == m.Length0 && f.Length1 == m.Length1
    ensures forall i, j :: 0 <= i < f.Length0 && 0 <= j < f.Length1 ==> f[i, j] == Number(m[i, j])
  {
    f := new Element[m.Length0, m.Length1]((i, j) reads m =>
      if 0 <= i < m.Length0 && 0 <= j < m.Length1 then Number(m[i, j]) else Word(""));
  }

  /** frame.replace(0, "", inplace=True): every zero becomes the empty string. */
  method ReplaceZeros(f: array2<Element>)
    modifies f
    ensures forall i, j :: 0 <= i < f.Length0 && 0 <= j < f.Length1 ==>
      f[i, j] == if old(f[i, j]) == Number(0.0) then Word("") else old(f[i, j])
  {
    var i := 0;
    while i < f.Length0
      invariant 0 <= i <= f.Length0
      invariant forall r, c :: 0 <= r < i && 0 <= c < f.Length1 ==>
        f[r, c] == if old(f[r, c]) == Number(0.0) then Word("") else old(f[r, c])
      invariant forall r, c :: i <= r < f.Length0 && 0 <= c < f.Length1 ==> f[r, c] == old(f[r, c])
    {
      var j := 0;
      while j < f.Length1
        invariant 0 <= j <= f.Length1
        invariant forall r, c :: 0 <= r < i && 0 <= c < f.Length1 ==>
          f[r, c] == if old(f[r, c]) == Number(0.0) then Word("") else old(f[r, c])
        invariant forall c :: 0 <= c < j ==>
          f[i, c] == if old(f[i, c]) == Number(0.0) then Word("") else old(f[i, c])
        invariant forall r, c :: i <= r < f.Length0 && 0 <= c < f.Length1 && (r > i || c >= j) ==>
          f[r, c] == old(f[r, c])
      {
        if f[i, j] == Number(0.0) {
          f[i, j] := Word("");
        }
        j := j + 1;
      }
      i := i + 1;
    }
  }

  /** np.fill_diagonal(frame.values, "-"): the diagonal becomes "-". */
  method FillDiagonal(f: array2<Element>)
    modifies f
    ensures forall i, j :: 0 <= i < f.Length0 && 0 <= j < f.Length1 ==>
      f[i, j] == if i == j then Word("-") else old(f[i, j])
  {
    var i := 0;
    while i < f.Length0 && i < f.Length1
      invariant 0 <= i <= f.Length0 && i <= f.Length1
      invariant forall r, c :: 0 <= r < f.Length0 && 0 <= c < f.Length1 ==>
        f[r, c] == if r == c && r < i then Word("-") else old(f[r, c])
    {
      f[i, i] := Word("-");
      i := i + 1;
    }
  }

  /** The loop that fills clean_results cell by cell. */
  method Clean(f: array2<Element>, ps: array2<real>) returns (clean: array2<Cell>)
    requires ps.Length0 == f.Length0 && ps.Length1 == f.Length1
    ensures fresh(clean) && clean.Length0 == f.Length0 && clean.Length1 == f.Length1
    ensures forall i, j :: 0 <= i < f.Length0 && 0 <= j < f.Length1 ==>
      clean[i, j] == CleanCell(f[i, j], ps[i, j])
  {
    clean := new Cell[f.Length0, f.Length1];
    var r := 0;
    while r < f.Length0
      invariant 0 <= r <= f.Length0
      invariant forall i, j :: 0 <= i < r && 0 <= j < f.Length1 ==>
        clean[i, j] == CleanCell(f[i, j], ps[i, j])
    {
      var e := 0;
      while e < f.Length1
        invariant 0 <= e <= f.Length1
        invariant forall i, j :: 0 <= i < r && 0 <= j < f.Length1 ==>
          clean[i, j] == CleanCell(f[i, j], ps[i, j])
        invariant forall j :: 0 <= j < e ==> clean[r, j] == CleanCell(f[r, j], ps[r, j])
      {
        var element := f[r, e];
        if element == Word("-") {
          clean[r, e] := Literal("-");
        } else if element == Word("") {
          clean[r, e] := Literal("");
        } else if element.Number? {
          clean[r, e] := Significance(element.x, ps[r, e]);
        } else {
          clean[r, e] := Literal(element.s);
        }
        e := e + 1;
      }
      r := r + 1;
    }
  }

  /** One iteration of the clean_results loop. A string other than "-" and ""
      cannot occur in the frame; it is rendered as itself. */
  function CleanCell(element: Element, p: real): Cell {
    match element
    case Word(s) => Literal(s)
    case Number(x) => Significance(x, p)
  }

  /** The significance table of spearmans_r and calculate_walker_matrix, from the
      n-by-n matrices of coefficients and p-values the statistic produced for
      every ordered pair of columns: "-" on the diagonal, "" above it and for a
      zero coefficient, and the marked coefficient below it. */
  method SignificanceTable(coefs: array2<real>, ps: array2<real>) returns (clean: array2<Cell>)
    requires coefs.Length0 == coefs.Length1
    requires ps.Length0 == coefs.Length0 && ps.Length1 == coefs.Length1
    ensures fresh(clean) && clean.Length0 == coefs.Length0 && clean.Length1 == coefs.Length1
    ensures forall i, j :: 0 <= i < clean.Length0 && 0 <= j < clean.Length1 ==>
      clean[i, j] == Formatted(i, j, coefs[i, j], ps[i, j])
  {
    var lower := StrictLower(coefs);
    var lowerPs := StrictLower(ps);
    var frame := Elements(lower);
    ReplaceZeros(frame);
    FillDiagonal(frame);
    clean := Clean(frame, lowerPs);
    forall i, j | 0 <= i < clean.Length0 && 0 <= j < clean.Length1
      ensures clean[i, j] == Formatted(i, j, coefs[i, j], ps[i, j])
    {
      CleanOf(i, j, coefs[i, j], ps[i, j], frame[i, j], lowerPs[i, j]);
    }
  }

  /** What the tril/replace/fill_diagonal pipeline leaves in one cell, and how it is cleaned. */
  lemma CleanOf(i: nat, j: nat, coef: real, p: real, element: Element, q: real)
    requires element == if i == j then Word("-")
      else if (if j < i then coef else 0.0) == 0.0 then Word("")
      else Number(if j < i then coef else 0.0)
    requires j < i ==> q == p
    ensures CleanCell(element, q) == Formatted(i, j, coef, p)
  {
  }

  // ------------------------------------------------------------------ add_tables

  /** A data frame as a mutable object: add_tables reassigns the column labels
      of its second argument in place. */
  class Frame {
    var names: seq<string>
    var rows: seq<Row>

    constructor (t: Table)
      ensures names == t.names && rows == t.rows
    {
      names := t.names;
      rows := t.rows;
    }

    /** The frame's current contents as a value. */
    function Contents(): Table
      reads this
    {
      Table(names, rows)
    }

    /** Distinct column labels and one cell per column in every row. */
    ghost predicate Valid()
      reads this
    {
      Tables.Valid(Contents())
    }

    /** One cell per column in every row; pandas allows repeated column labels. */
    ghost predicate Shaped()
      reads this
    {
      forall k :: 0 <= k < |rows| ==> |rows[k].cells| == |names|
    }
  }

  /** [name + "_2" for name in names]. */
  function Suffixed(names: seq<string>): seq<string> {
    seq(|names|, i requires 0 <= i < |names| => names[i] + "_2")
  }

  /** Renaming keeps the labels in order and apart: distinct labels stay distinct. */
  lemma SuffixedDistinct(names: seq<string>)
    requires forall i, j :: 0 <= i < j < |names| ==> names[i] != names[j]
    ensures |Suffixed(names)| == |names|
    ensures forall i :: 0 <= i < |names| ==> Suffixed(names)[i] == names[i] + "_2"
    ensures forall i, j :: 0 <= i < j < |names| ==> Suffixed(names)[i] != Suffixed(names)[j]
  {
    var s := Suffixed(names);
    forall i, j | 0 <= i < j < |names|
      ensures s[i] != s[j]
    {
      assert names[i] == s[i][..|s[i]| - 2];
      assert names[j] == s[j][..|s[j]| - 2];
    }
  }

  /** The label ends in the "_2" that add_tables appends. */
  predicate EndsInSuffix(name: string) {
    |name| >= 2 && name[|name| - 2..] == "_2"
  }

  /** Why same_columns exists: when no label of t1 already ends in "_2", the
      suffixed labels of t2 never repeat a label of the combined table. */
  lemma CombinedNamesDistinct(left: seq<string>, right: seq<string>)
    requires forall i, j :: 0 <= i < j < |left| ==> left[i] != left[j]
    requires forall i, j :: 0 <= i < j < |right| ==> right[i] != right[j]
    requires forall i :: 0 <= i < |left| ==> !EndsInSuffix(left[i])
    ensures forall i, j :: 0 <= i < j < |left + Suffixed(right)| ==>
      (left + Suffixed(right))[i] != (left + Suffixed(right))[j]
  {
    var s := Suffixed(right);
    SuffixedDistinct(right);
    forall i, j | 0 <= i < |left| && 0 <= j < |s|
      ensures left[i] != s[j]
    {
      assert EndsInSuffix(s[j]) by {
        assert s[j][|s[j]| - 2..] == "_2";
      }
    }
  }

  /** No label is repeated in the row index. */
  predicate UniqueKeys(keys: seq<Value>) {
    forall i, j :: 0 <= i < j < |keys| ==> keys[i] != keys[j]
  }

  /** The position of the row labelled `key`, if there is one. */
  function Find(keys: seq<Value>, key: Value): (r: Option<nat>)
    ensures r.None? <==> key !in keys
    ensures r.Some? ==> r.value < |keys| && keys[r.value] == key
    ensures r.Some? ==> forall k :: 0 <= k < r.value ==> keys[k] != key
  {
    if keys == [] then None
    else if keys[0] == key then Some(0)
    else
      var rest := Find(keys[1..], key);
      assert forall k :: 0 < k < |keys| ==> keys[k] == keys[1..][k - 1];
      if rest.None? then None else Some(rest.value + 1)
  }

  /** A row of nan, for an index label the reindexed frame lacks. */
  function Missing(n: nat): (cells: seq<Value>)
    ensures |cells| == n && forall k :: 0 <= k < n ==> cells[k] == NonFinite
  {
    seq(n, k => NonFinite)
  }

  /** frame.reindex(keys): rows in the order of `keys`, looked up by label, nan
      for an absent label. An index equal to `keys` is kept as it is; otherwise
      the frame's own index must not repeat a label. */
  function Reindex(t: Table, keys: seq<Value>): (r: Result<Table>)
    ensures r.Fail? <==> Labels(t) != keys && !UniqueKeys(Labels(t))
    ensures r.Fail? ==> r.error == DuplicateLabels
    ensures Labels(t) == keys ==> r == Ok(t)
    ensures r.Ok? ==> r.value.names == t.names && Labels(r.value) == keys
    ensures r.Ok? && UniqueKeys(Labels(t)) ==> forall k :: 0 <= k < |keys| ==>
      r.value.rows[k].cells == LookupCells(t, keys[k])
  {
    var labels := Labels(t);
    if labels == keys then Ok(t)
    else if !UniqueKeys(labels) then Fail(DuplicateLabels)
    else Ok(Lookup(t, keys))
  }

  /** The rows found for `keys` by label, nan where a label is absent. */
  function Lookup(t: Table, keys: seq<Value>): (r: Table)
    ensures r.names == t.names && |r.rows| == |keys|
    ensures forall k :: 0 <= k < |keys| ==> r.rows[k] == Row(keys[k], LookupCells(t, keys[k]))
    ensures Labels(r) == keys
  {
    var r := Table(t.names, seq(|keys|, k requires 0 <= k < |keys| => Row(keys[k], LookupCells(t, keys[k]))));
    assert Labels(r) == keys;
    r
  }

  /** The cells of the first row labelled `key`, or a row of nan. */
  function LookupCells(t: Table, key: Value): (cells: seq<Value>)
    ensures key in Labels(t) ==> exists m :: 0 <= m < |t.rows| && t.rows[m].key == key && cells == t.rows[m].cells
    ensures key !in Labels(t) ==> cells == Missing(|t.names|)
  {
    var at := Find(Labels(t), key);
    if at.None? then Missing(|t.names|) else t.rows[at.value].cells
  }

  /** pd.concat([left, right], axis=1) of two frames on the same index: the
      columns of `left`, then those of `right`, row by row. */
  function Beside(left: Table, right: Table): (r: Table)
    requires Labels(right) == Labels(left)
    ensures r.names == left.names + right.names
    ensures Labels(r) == Labels(left)
    ensures forall k :: 0 <= k < |r.rows| ==> r.rows[k].cells == left.rows[k].cells + right.rows[k].cells
  {
    Table(left.names + right.names, seq(|left.rows|, k requires 0 <= k < |left.rows| =>
      assert right.rows[k].key == Labels(right)[k];
      Row(left.rows[k].key, left.rows[k].cells + right.rows[k].cells)))
  }

  /** add_tables: optionally suffix t2's column labels with "_2" (in place, so a
      caller's t2 keeps the new labels, and so does t1 when it is the same
      object), then put t2, reindexed to t1's index, to the right of t1. */
  method AddTables(t1: Frame, t2: Frame, sameColumns: bool) returns (r: Result<Table>)
    requires t2.Shaped()
    modifies t2
    ensures t2.Shaped()
    ensures old(t2.Valid()) ==> t2.Valid()
    ensures t2.names == if sameColumns then Suffixed(old(t2.names)) else old(t2.names)
    ensures t2.rows == old(t2.rows)
    ensures t1 != t2 ==> t1.names == old(t1.names) && t1.rows == old(t1.rows)
    ensures r.Fail? <==> Reindex(t2.Contents(), Labels(t1.Contents())).Fail?
    ensures r.Ok? ==> r.value == Beside(t1.Contents(), Reindex(t2.Contents(), Labels(t1.Contents())).value)
    ensures t1 == t2 ==> r.Ok? && r.value.names == t2.names + t2.names
  {
    if sameColumns {
      if t2.Valid() {
        SuffixedDistinct(t2.names);
      }
      t2.names := Suffixed(t2.names);
    }
    var right := Reindex(t2.Contents(), Labels(t1.Contents()));
    if right.Fail? {
      return Fail(right.error);
    }
    r := Ok(Beside(t1.Contents(), right.value));
  }
}
