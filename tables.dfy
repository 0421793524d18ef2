/** The table vocabulary shared by the gamba model: cell values, errors raised
    by pandas/numpy/Python, and a row-major table with a row index. */
module Tables {

  /** One cell of a data frame. `NonFinite` stands for the inf/nan that numpy
      produces when a numpy scalar is divided by zero. */
  datatype Value = Str(s: string) | Num(x: real) | NonFinite

  /** The ways the modelled operations stop without a result. */
  datatype Error =
    | MissingColumn(column: string)  // the Exception raised by check_measure_data
    | KeyError(key: string)          // a pandas column lookup of an absent name
    | IndexError                     // iloc[0] (or a list index) past the end
    | ZeroDivision                   // Python's int / int with a zero divisor
    | LengthMismatch                 // assigning a column or index of the wrong length
    | DuplicateLabels                // reindexing a frame whose index has repeated labels
    | PercentileRange                // np.percentile with a percentage outside [0, 100]
    | NotNumeric(column: string)     // arithmetic on a column holding non-numbers

  /** The text of check_measure_data's exception. */
  function Message(e: Error): string
    requires e.MissingColumn?
  {
    "Column '" + e.column + "' missing from provided dataframe."
  }

  datatype Result<T> = Ok(value: T) | Fail(error: Error) {
    predicate IsFailure() { Fail? }
    function PropagateFailure<U>(): Result<U>
      requires Fail?
    {
      Fail(error)
    }
    function Extract(): T
      requires Ok?
    {
      value
    }
  }

  datatype Option<T> = None | Some(value: T)

  /** A row: its index label `key` and its cells, one per column name. */
  datatype Row = Row(key: Value, cells: seq<Value>)

  /** A data frame stored row by row. */
  datatype Table = Table(names: seq<string>, rows: seq<Row>)

  /** Column names are distinct and every row has one cell per column. */
  ghost predicate Valid(t: Table) {
    && (forall i, j :: 0 <= i < j < |t.names| ==> t.names[i] != t.names[j])
    && (forall k :: 0 <= k < |t.rows| ==> |t.rows[k].cells| == |t.names|)
  }

  /** The position of `name` among the column names. */
  function IndexOf(names: seq<string>, name: string): (i: nat)
    requires name in names
    ensures i < |names| && names[i] == name
    ensures forall j :: 0 <= j < i ==> names[j] != name
  {
    if names[0] == name then 0 else 1 + IndexOf(names[1..], name)
  }

  /** The column `name`, top to bottom. */
  function Column(t: Table, name: string): (c: seq<Value>)
    requires Valid(t) && name in t.names
    ensures |c| == |t.rows|
    ensures forall k :: 0 <= k < |t.rows| ==> c[k] == t.rows[k].cells[IndexOf(t.names, name)]
  {
    var i := IndexOf(t.names, name);
    seq(|t.rows|, k requires 0 <= k < |t.rows| => t.rows[k].cells[i])
  }

  /** The row labels, top to bottom. */
  function Labels(t: Table): (l: seq<Value>)
    ensures |l| == |t.rows|
    ensures forall k :: 0 <= k < |t.rows| ==> l[k] == t.rows[k].key
  {
    seq(|t.rows|, k requires 0 <= k < |t.rows| => t.rows[k].key)
  }

  /** `df[name] = values` on a frame: an existing column is replaced in place,
      a new one is appended on the right. */
  function AddColumn(t: Table, name: string, values: seq<Value>): (r: Table)
    requires Valid(t) && |values| == |t.rows|
    ensures Valid(r)
    ensures r.names == if name in t.names then t.names else t.names + [name]
    ensures |r.rows| == |t.rows|
    ensures forall k :: 0 <= k < |r.rows| ==> r.rows[k].key == t.rows[k].key
    ensures name in r.names && Column(r, name) == values
    ensures forall c :: c in t.names && c != name ==> Column(r, c) == Column(t, c)
  {
    if name in t.names then ReplaceColumn(t, name, values) else AppendColumn(t, name, values)
  }

  /** The existing column `name` overwritten with `values`. */
  function ReplaceColumn(t: Table, name: string, values: seq<Value>): (r: Table)
    requires Valid(t) && |values| == |t.rows| && name in t.names
    ensures Valid(r) && r.names == t.names && |r.rows| == |t.rows|
    ensures forall k :: 0 <= k < |r.rows| ==> r.rows[k].key == t.rows[k].key
    ensures Column(r, name) == values
    ensures forall c :: c in t.names && c != name ==> Column(r, c) == Column(t, c)
  {
    var i := IndexOf(t.names, name);
    var r := Table(t.names, seq(|t.rows|, k requires 0 <= k < |t.rows| =>
      Row(t.rows[k].key, t.rows[k].cells[i := values[k]])));
    assert forall c :: c in t.names && c != name ==> IndexOf(r.names, c) != i;
    r
  }

  /** A new column `name` holding `values`, appended on the right. */
  function AppendColumn(t: Table, name: string, values: seq<Value>): (r: Table)
    requires Valid(t) && |values| == |t.rows| && name !in t.names
    ensures Valid(r) && r.names == t.names + [name] && |r.rows| == |t.rows|
    ensures forall k :: 0 <= k < |r.rows| ==> r.rows[k].key == t.rows[k].key
    ensures name in r.names && Column(r, name) == values
    ensures forall c :: c in t.names ==> Column(r, c) == Column(t, c)
  {
    var r := Table(t.names + [name], seq(|t.rows|, k requires 0 <= k < |t.rows| =>
      Row(t.rows[k].key, t.rows[k].cells + [values[k]])));
    assert name in r.names && Column(r, name) == values by {
      IndexOfAppended(t.names, name, name);
    }
    assert forall c :: c in t.names ==> Column(r, c) == Column(t, c) by {
      forall c | c in t.names
        ensures Column(r, c) == Column(t, c)
      {
        IndexOfAppended(t.names, name, c);
      }
    }
    r
  }

  /** Appending a name leaves the positions of the others alone and puts the new one last. */
  lemma {:induction false} IndexOfAppended(names: seq<string>, extra: string, c: string)
    requires extra !in names && (c in names || c == extra)
    ensures IndexOf(names + [extra], c) == if c in names then IndexOf(names, c) else |names|
  {
    if names != [] && names[0] != c {
      assert (names + [extra])[1..] == names[1..] + [extra];
      IndexOfAppended(names[1..], extra, c);
    }
  }

  /** A numpy scalar quotient: inf or nan when the divisor is zero. */
  function Divide(a: real, b: real): (v: Value)
    ensures v.NonFinite? <==> b == 0.0
    ensures v.Num? ==> v.x * b == a
  {
    if b == 0.0 then NonFinite else Num(a / b)
  }

  /** Scaling a numpy scalar; inf and nan stay non-finite. */
  function Scale(v: Value, c: real): (w: Value)
    requires !v.Str?
    ensures w.NonFinite? <==> v.NonFinite?
    ensures w.Num? ==> w.x == v.x * c
  {
    if v.Num? then Num(v.x * c) else NonFinite
  }

  /** Every cell of `vs` holds a number. */
  predicate AllNumbers(vs: seq<Value>) {
    forall i :: 0 <= i < |vs| ==> vs[i].Num?
  }

  /** The numbers of an all-number column. */
  function Numbers(vs: seq<Value>): (xs: seq<real>)
    requires AllNumbers(vs)
    ensures |xs| == |vs|
    ensures forall i :: 0 <= i < |vs| ==> vs[i] == Num(xs[i])
  {
    seq(|vs|, i requires 0 <= i < |vs| => vs[i].x)
  }

  /** pd.DataFrame.from_dict({names[c]: lists[c]}): one column per list,
      rows labelled 0, 1, …, n-1. */
  function FromColumns(names: seq<string>, lists: seq<seq<Value>>, n: nat): (t: Table)
    requires |lists| == |names|
    requires forall c :: 0 <= c < |lists| ==> |lists[c]| == n
    ensures t.names == names && |t.rows| == n
    ensures Labels(t) == RangeIndex(n)
    ensures forall k :: 0 <= k < n ==> |t.rows[k].cells| == |names|
    ensures forall k, c :: 0 <= k < n && 0 <= c < |names| ==> t.rows[k].cells[c] == lists[c][k]
  {
    Table(names, seq(n, k requires 0 <= k < n =>
      Row(Num(k as real), seq(|names|, c requires 0 <= c < |names| => lists[c][k]))))
  }

  /** 0, 1, …, n-1: the RangeIndex a fresh frame receives. */
  function RangeIndex(n: nat): (l: seq<Value>)
    ensures |l| == n
    ensures forall k :: 0 <= k < n ==> l[k] == Num(k as real)
  {
    seq(n, k => Num(k as real))
  }
}
