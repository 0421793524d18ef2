/** The per-player behavioural measures of gamba/measures.py.

    A player's bets are a record per row; which columns the frame actually
    has is kept beside the rows, since every measure first checks for the
    columns it reads. A field of a column the frame lacks is never read.
    Times are whole seconds; `.date()` is the day number `t / 86400`. */
module Measures {
  import opened Tables
  import Seqs

  const SecondsPerDay: int := 86400
  /** datetime.timedelta(days=+30) */
  const FirstMonthSeconds: int := 30 * SecondsPerDay

  datatype Bet = Bet(playerId: Value, betTime: int, betSize: real, payoutSize: real, betCount: int)

  function BetTime(b: Bet): int { b.betTime }
  function BetSize(b: Bet): real { b.betSize }
  function PayoutSize(b: Bet): real { b.payoutSize }
  function BetCount(b: Bet): real { b.betCount as real }

  function Sizes(rows: seq<Bet>): seq<real> { Seqs.Map(rows, BetSize) }
  function Payouts(rows: seq<Bet>): seq<real> { Seqs.Map(rows, PayoutSize) }
  function Counts(rows: seq<Bet>): seq<real> { Seqs.Map(rows, BetCount) }

  /** The calendar day of a timestamp: floor division by SecondsPerDay, so also right before 1970. */
  function Day(t: int): int { t / 86400 }

  lemma DayMonotone(s: int, t: int)
    requires s <= t
    ensures Day(s) <= Day(t)
  {
  }

  lemma DayShift(t: int, k: int)
    ensures Day(t + k * SecondsPerDay) == Day(t) + k
  {
    var q := t / SecondsPerDay;
    var m := t % SecondsPerDay;
    assert t + k * SecondsPerDay == (q + k) * SecondsPerDay + m;
  }

  // ------------------------------------------------------------------ schema check

  /** check_measure_data: the first required column, in list order, that the
      frame lacks is reported; with all of them present the check passes. */
  function CheckMeasureData(columns: seq<string>, required: seq<string>): (r: Result<()>)
    ensures r.Ok? <==> forall c :: c in required ==> c in columns
    ensures r.Fail? ==> exists i :: (0 <= i < |required| && r.error == MissingColumn(required[i])
      && required[i] !in columns && forall j :: 0 <= j < i ==> required[j] in columns)
  {
    if required == [] then Ok(())
    else if required[0] !in columns then Fail(MissingColumn(required[0]))
    else
      var r := CheckMeasureData(columns, required[1..]);
      assert forall c :: c in required ==> c == required[0] || c in required[1..];
      if r.Fail? then
        var i :| 0 <= i < |required[1..]| && r.error == MissingColumn(required[1..][i])
          && required[1..][i] !in columns && forall j :: 0 <= j < i ==> required[1..][j] in columns;
        assert r.error == MissingColumn(required[i + 1]);
        r
      else r
  }

  /** The check reads only whether each required name is present. */
  lemma CheckSameColumns(c1: seq<string>, c2: seq<string>, required: seq<string>)
    requires forall x :: x in required ==> (x in c1 <==> x in c2)
    ensures CheckMeasureData(c1, required) == CheckMeasureData(c2, required)
    decreases required
  {
    if required != [] {
      CheckSameColumns(c1, c2, required[1..]);
    }
  }

  // ------------------------------------------------------------------ first and last bet

  function MinTime(rows: seq<Bet>): (m: int)
    requires rows != []
    ensures forall b :: b in rows ==> m <= b.betTime
    ensures exists b :: b in rows && b.betTime == m
  {
    if |rows| == 1 then rows[0].betTime
    else
      var m := MinTime(rows[1..]);
      assert forall b :: b in rows ==> b == rows[0] || b in rows[1..];
      if rows[0].betTime <= m then rows[0].betTime else m
  }

  function MaxTime(rows: seq<Bet>): (m: int)
    requires rows != []
    ensures forall b :: b in rows ==> b.betTime <= m
    ensures exists b :: b in rows && b.betTime == m
  {
    if |rows| == 1 then rows[0].betTime
    else
      var m := MaxTime(rows[1..]);
      assert forall b :: b in rows ==> b == rows[0] || b in rows[1..];
      if rows[0].betTime >= m then rows[0].betTime else m
  }

  /** A row no later than every other one carries the earliest time. */
  lemma MinTimeAt(rows: seq<Bet>, i: int)
    requires 0 <= i < |rows|
    requires forall j :: 0 <= j < |rows| ==> rows[i].betTime <= rows[j].betTime
    ensures MinTime(rows) == rows[i].betTime
  {
    var m := MinTime(rows);
    var b :| b in rows && b.betTime == m;
    assert rows[i] in rows;
    var j :| 0 <= j < |rows| && rows[j] == b;
  }

  /** A row no earlier than every other one carries the latest time. */
  lemma MaxTimeAt(rows: seq<Bet>, i: int)
    requires 0 <= i < |rows|
    requires forall j :: 0 <= j < |rows| ==> rows[j].betTime <= rows[i].betTime
    ensures MaxTime(rows) == rows[i].betTime
  {
    var m := MaxTime(rows);
    var b :| b in rows && b.betTime == m;
    assert rows[i] in rows;
    var j :| 0 <= j < |rows| && rows[j] == b;
  }

  /** The days on which at least one bet was placed. */
  function BetDays(rows: seq<Bet>): set<int> {
    if rows == [] then {} else {Day(rows[0].betTime)} + BetDays(rows[1..])
  }

  /** Each bet's day is a bet day. */
  lemma {:induction false} BetDayOf(rows: seq<Bet>, b: Bet)
    requires b in rows
    ensures Day(b.betTime) in BetDays(rows)
  {
    if b != rows[0] {
      BetDayOf(rows[1..], b);
    }
  }

  /** Each bet day is the day of some bet. */
  lemma {:induction false} BetOnDay(rows: seq<Bet>, d: int) returns (b: Bet)
    requires d in BetDays(rows)
    ensures b in rows && Day(b.betTime) == d
  {
    if d == Day(rows[0].betTime) {
      b := rows[0];
    } else {
      b := BetOnDay(rows[1..], d);
      assert b in rows[1..];
    }
  }

  /** The number of distinct bet dates. */
  function ActiveDays(rows: seq<Bet>): nat { |BetDays(rows)| }

  /** The days lo, lo+1, …, hi-1. */
  function Interval(lo: int, hi: int): (days: set<int>)
    ensures forall d :: d in days <==> lo <= d < hi
    decreases hi - lo
  {
    if hi <= lo then {} else Interval(lo, hi - 1) + {hi - 1}
  }

  lemma {:induction false} IntervalSize(lo: int, hi: int)
    requires lo <= hi
    ensures |Interval(lo, hi)| == hi - lo
    decreases hi - lo
  {
    if lo < hi {
      var below := Interval(lo, hi - 1);
      IntervalSize(lo, hi - 1);
      assert hi - 1 !in below;
      assert Interval(lo, hi) == below + {hi - 1};
      assert |below + {hi - 1}| == |below| + 1;
    }
  }

  lemma SubsetSize(a: set<int>, b: set<int>)
    requires a <= b
    ensures |a| <= |b|
    ensures |a| == |b| ==> a == b
  {
    assert b == a + (b - a);
    assert |b| == |a| + |b - a|;
  }

  /** Every bet day lies between the first and the last bet's days. */
  lemma BetDaysWithin(rows: seq<Bet>)
    requires rows != []
    ensures BetDays(rows) <= Interval(Day(MinTime(rows)), Day(MaxTime(rows)) + 1)
    ensures Day(MinTime(rows)) in BetDays(rows)
  {
    var first, last := MinTime(rows), MaxTime(rows);
    var days := BetDays(rows);
    var m :| m in rows && m.betTime == first;
    BetDayOf(rows, m);
    forall d | d in days ensures d in Interval(Day(first), Day(last) + 1) {
      var b := BetOnDay(rows, d);
      DayMonotone(first, b.betTime);
      DayMonotone(b.betTime, last);
    }
  }

  // ------------------------------------------------------------------ sorting by bet_time

  ghost predicate TimeSorted(rows: seq<Bet>) {
    forall i, j :: 0 <= i < j < |rows| ==> rows[i].betTime <= rows[j].betTime
  }

  function InsertByTime(b: Bet, rows: seq<Bet>): (r: seq<Bet>)
    ensures |r| == |rows| + 1
  {
    if rows == [] then [b]
    else if b.betTime <= rows[0].betTime then [b] + rows
    else [rows[0]] + InsertByTime(b, rows[1..])
  }

  lemma {:induction false} InsertByTimePerm(b: Bet, rows: seq<Bet>)
    ensures multiset(InsertByTime(b, rows)) == multiset(rows) + multiset{b}
  {
    if rows != [] && b.betTime > rows[0].betTime {
      var tail := rows[1..];
      InsertByTimePerm(b, tail);
      assert rows == [rows[0]] + tail;
      assert InsertByTime(b, rows) == [rows[0]] + InsertByTime(b, tail);
    }
  }

  /** A bet no later than every row of a sorted list may go in front of it. */
  lemma TimeSortedCons(a: Bet, t: seq<Bet>)
    requires TimeSorted(t)
    requires forall k :: 0 <= k < |t| ==> a.betTime <= t[k].betTime
    ensures TimeSorted([a] + t)
  {
    var s := [a] + t;
    forall i, j | 0 <= i < j < |s| ensures s[i].betTime <= s[j].betTime {
      assert s[j] == t[j - 1];
      if i > 0 {
        assert s[i] == t[i - 1];
      }
    }
  }

  lemma {:induction false} InsertByTimeSorted(b: Bet, rows: seq<Bet>)
    requires TimeSorted(rows)
    ensures TimeSorted(InsertByTime(b, rows))
    ensures multiset(InsertByTime(b, rows)) == multiset(rows) + multiset{b}
  {
    InsertByTimePerm(b, rows);
    if rows == [] {
    } else if b.betTime <= rows[0].betTime {
      TimeSortedCons(b, rows);
    } else {
      var tail := rows[1..];
      var t := InsertByTime(b, tail);
      assert TimeSorted(tail) by {
        forall i, j | 0 <= i < j < |tail| ensures tail[i].betTime <= tail[j].betTime {
          assert tail[i] == rows[i + 1] && tail[j] == rows[j + 1];
        }
      }
      InsertByTimeSorted(b, tail);
      forall k | 0 <= k < |t| ensures rows[0].betTime <= t[k].betTime {
        assert t[k] in multiset(tail) + multiset{b};
        if t[k] != b {
          assert t[k] in tail;
          var j :| 0 <= j < |tail| && tail[j] == t[k];
          assert tail[j] == rows[j + 1];
        }
      }
      TimeSortedCons(rows[0], t);
      assert InsertByTime(b, rows) == [rows[0]] + t;
    }
  }

  /** sort_values("bet_time"): the rows in non-decreasing time order. pandas'
      default sort is not stable, so the order of bets placed at the same
      instant is not fixed; the model picks insertion order. */
  function SortByTime(rows: seq<Bet>): (r: seq<Bet>)
    ensures TimeSorted(r)
    ensures multiset(r) == multiset(rows)
    ensures |r| == |rows|
  {
    if rows == [] then []
    else
      assert rows == [rows[0]] + rows[1..];
      InsertByTimeSorted(rows[0], SortByTime(rows[1..]));
      InsertByTime(rows[0], SortByTime(rows[1..]))
  }

  /** After sorting, the first and last rows carry the earliest and latest times. */
  lemma SortedEnds(r: seq<Bet>, rows: seq<Bet>)
    requires rows != [] && TimeSorted(r) && multiset(r) == multiset(rows)
    ensures r != [] && r[0].betTime == MinTime(rows) && r[|r| - 1].betTime == MaxTime(rows)
  {
    SameElements(r, rows);
    SameEnds(rows, r);
    SortedMinMax(r);
  }

  lemma {:induction false} SortedMinMax(r: seq<Bet>)
    requires r != [] && TimeSorted(r)
    ensures MinTime(r) == r[0].betTime && MaxTime(r) == r[|r| - 1].betTime
  {
    if |r| > 1 {
      var t := r[1..];
      assert TimeSorted(t) by {
        forall i, j | 0 <= i < j < |t| ensures t[i].betTime <= t[j].betTime {
          assert t[i] == r[i + 1] && t[j] == r[j + 1];
        }
      }
      SortedMinMax(t);
      assert t[0] == r[1] && t[|t| - 1] == r[|r| - 1];
      assert r[0].betTime <= r[1].betTime <= r[|r| - 1].betTime;
    }
  }

  /** The earliest and latest times depend only on which bets there are. */
  lemma SameEnds(a: seq<Bet>, b: seq<Bet>)
    requires a != [] && forall x :: x in a <==> x in b
    ensures b != [] && MinTime(a) == MinTime(b) && MaxTime(a) == MaxTime(b)
  {
    assert a[0] in b;
    var p :| p in a && p.betTime == MinTime(a);
    var q :| q in b && q.betTime == MinTime(b);
    var u :| u in a && u.betTime == MaxTime(a);
    var v :| v in b && v.betTime == MaxTime(b);
    assert p in b && q in a && u in b && v in a;
  }

  lemma SameElements<T>(a: seq<T>, b: seq<T>)
    requires multiset(a) == multiset(b)
    ensures forall x :: x in a <==> x in b
    ensures |a| == |b|
  {
    assert forall x :: x in a <==> x in multiset(a);
    assert |a| == |multiset(a)| == |multiset(b)| == |b|;
  }

  // ------------------------------------------------------------------ duration and frequency

  /** duration: calendar days from the first bet's date to the last one's, inclusive. */
  function DurationOf(columns: seq<string>, rows: seq<Bet>): Result<int> {
    var _ :- CheckMeasureData(columns, ["bet_time"]);
    if rows == [] then Fail(IndexError)
    else Ok(Day(MaxTime(rows)) - Day(MinTime(rows)) + 1)
  }

  /** frequency: the share, in percent, of the duration's days that hold a bet. */
  function FrequencyOf(columns: seq<string>, rows: seq<Bet>): Result<real> {
    var age :- DurationOf(columns, rows);
    DurationAtLeastOneDay(columns, rows);
    Ok(ActiveDays(rows) as real / age as real * 100.0)
  }

  /** average_bets_per_day: rows per active day. */
  function AverageBetsPerDayOf(columns: seq<string>, rows: seq<Bet>): Result<real> {
    var _ :- DurationOf(columns, rows);
    ActiveDaysPositive(rows);
    Ok(|rows| as real / ActiveDays(rows) as real)
  }

  /** average_bets_per_day_daily: Σ bet_count per active day. */
  function AverageBetsPerDayDailyOf(columns: seq<string>, rows: seq<Bet>): Result<real> {
    var _ :- DurationOf(columns, rows);
    var bets :- NumberOfBetsDaily(columns, rows);
    ActiveDaysPositive(rows);
    Ok(bets / ActiveDays(rows) as real)
  }

  lemma ActiveDaysPositive(rows: seq<Bet>)
    requires rows != []
    ensures ActiveDays(rows) > 0
  {
    assert Day(rows[0].betTime) in BetDays(rows);
  }

  /** The duration needs the bet_time column and at least one bet. */
  lemma DurationDefined(columns: seq<string>, rows: seq<Bet>)
    ensures DurationOf(columns, rows).Ok? <==> "bet_time" in columns && rows != []
    ensures "bet_time" !in columns ==> DurationOf(columns, rows) == Fail(MissingColumn("bet_time"))
    ensures "bet_time" in columns && rows == [] ==> DurationOf(columns, rows) == Fail(IndexError)
  {
  }

  /** duration is at least one day and counts both end days. */
  lemma DurationPositive(columns: seq<string>, rows: seq<Bet>)
    requires DurationOf(columns, rows).Ok?
    ensures DurationOf(columns, rows).value >= 1
    ensures DurationOf(columns, rows).value == |Interval(Day(MinTime(rows)), Day(MaxTime(rows)) + 1)|
  {
    DurationDefined(columns, rows);
    DurationValue(columns, rows);
    var first, last := MinTime(rows), MaxTime(rows);
    assert first <= rows[0].betTime <= last;
    SpanSize(first, last);
  }

  lemma DurationAtLeastOneDay(columns: seq<string>, rows: seq<Bet>)
    requires DurationOf(columns, rows).Ok?
    ensures DurationOf(columns, rows).value >= 1
  {
    DurationPositive(columns, rows);
  }

  /** From one instant to a later one there are at least one and exactly as many days as the span holds. */
  lemma SpanSize(first: int, last: int)
    requires first <= last
    ensures Day(last) - Day(first) + 1 >= 1
    ensures Day(last) - Day(first) + 1 == |Interval(Day(first), Day(last) + 1)|
  {
    var lo, hi := Day(first), Day(last);
    DayMonotone(first, last);
    IntervalSize(lo, hi + 1);
  }

  /** frequency lies in (0, 100]. */
  lemma FrequencyBounds(columns: seq<string>, rows: seq<Bet>)
    requires FrequencyOf(columns, rows).Ok?
    ensures 0.0 < FrequencyOf(columns, rows).value <= 100.0
  {
    DurationPositive(columns, rows);
    BetDaysWithin(rows);
    SubsetSize(BetDays(rows), Interval(Day(MinTime(rows)), Day(MaxTime(rows)) + 1));
    var a := ActiveDays(rows) as real;
    var d := DurationOf(columns, rows).value as real;
    assert 0.0 < a <= d;
    RatioBounds(a, d);
  }

  lemma RatioBounds(a: real, d: real)
    requires 0.0 < a <= d
    ensures 0.0 < a / d * 100.0 <= 100.0
    ensures a / d * 100.0 == 100.0 <==> a == d
  {
  }

  /** frequency is 100 exactly when every day from the first bet's to the last bet's holds a bet. */
  lemma FrequencyFull(columns: seq<string>, rows: seq<Bet>)
    requires FrequencyOf(columns, rows).Ok?
    ensures FrequencyOf(columns, rows).value == 100.0 <==>
      HasEveryDay(BetDays(rows), Day(MinTime(rows)), Day(MaxTime(rows)))
  {
    var span := Interval(Day(MinTime(rows)), Day(MaxTime(rows)) + 1);
    var a := ActiveDays(rows);
    var age := DurationOf(columns, rows).value;
    DurationPositive(columns, rows);
    ActiveDaysPositive(rows);
    FullSpan(rows);
    RatioBounds(a as real, age as real);
    assert FrequencyOf(columns, rows).value == a as real / age as real * 100.0;
  }

  /** The bet days fill the span from first to last exactly when there are as many as the span has days. */
  lemma FullSpan(rows: seq<Bet>)
    requires rows != []
    ensures var span := Interval(Day(MinTime(rows)), Day(MaxTime(rows)) + 1);
      ActiveDays(rows) <= |span| &&
      (ActiveDays(rows) == |span| <==>
        HasEveryDay(BetDays(rows), Day(MinTime(rows)), Day(MaxTime(rows))))
  {
    var first, last := MinTime(rows), MaxTime(rows);
    var lo, hi := Day(first), Day(last);
    var days := BetDays(rows);
    var span := Interval(lo, hi + 1);
    assert days <= span by {
      BetDaysWithin(rows);
    }
    SpanFilled(days, lo, hi);
    assert ActiveDays(rows) == |days|;
    assert |days| <= |span|;
    assert |days| == |span| <==> HasEveryDay(days, lo, hi);
  }

  /** Every day from lo to hi, both included, is in the set. */
  predicate HasEveryDay(days: set<int>, lo: int, hi: int) {
    forall d :: lo <= d <= hi ==> d in days
  }

  /** A set of days within [lo, hi] has as many days as the span exactly when it holds every one of them. */
  lemma SpanFilled(days: set<int>, lo: int, hi: int)
    requires days <= Interval(lo, hi + 1)
    ensures |days| <= |Interval(lo, hi + 1)|
    ensures |days| == |Interval(lo, hi + 1)| <==> HasEveryDay(days, lo, hi)
  {
    var span := Interval(lo, hi + 1);
    SubsetSize(days, span);
    if HasEveryDay(days, lo, hi) {
      assert span <= days;
      SubsetSize(span, days);
    }
    if |days| == |span| {
      forall d | lo <= d <= hi
        ensures d in days
      {
        assert d in span;
      }
    }
  }

  // ------------------------------------------------------------------ closed-form measures

  /** number_of_bets */
  function NumberOfBets(rows: seq<Bet>): nat { |rows| }

  /** average_bet_size: Σ bet_size over the row count (nan for no rows). */
  function AverageBetSize(columns: seq<string>, rows: seq<Bet>): (r: Result<Value>)
    ensures r.Fail? <==> "bet_size" !in columns
    ensures r.Fail? ==> r.error == MissingColumn("bet_size")
    ensures r.Ok? ==> (r.value.NonFinite? <==> rows == [])
  {
    var _ :- CheckMeasureData(columns, ["bet_size"]);
    Ok(Divide(Seqs.Sum(Sizes(rows)), |rows| as real))
  }

  /** total_wagered: Σ bet_size. */
  function TotalWagered(columns: seq<string>, rows: seq<Bet>): (r: Result<real>)
    ensures r.Fail? <==> "bet_size" !in columns
    ensures r.Fail? ==> r.error == MissingColumn("bet_size")
  {
    var _ :- CheckMeasureData(columns, ["bet_size"]);
    Ok(Seqs.Sum(Sizes(rows)))
  }

  /** net_loss: Σ bet_size − Σ payout_size. */
  function NetLoss(columns: seq<string>, rows: seq<Bet>): (r: Result<real>)
    ensures r.Fail? <==> "bet_size" !in columns || "payout_size" !in columns
    ensures r.Fail? ==> r.error == MissingColumn(if "bet_size" !in columns then "bet_size" else "payout_size")
  {
    var _ :- CheckMeasureData(columns, ["bet_size", "payout_size"]);
    Ok(Seqs.Sum(Sizes(rows)) - Seqs.Sum(Payouts(rows)))
  }

  /** percent_loss: net loss over total wagered, times 100; inf/nan when nothing was wagered. */
  function PercentLoss(columns: seq<string>, rows: seq<Bet>): (r: Result<Value>)
    ensures r.Fail? <==> "bet_size" !in columns || "payout_size" !in columns
    ensures r.Ok? ==> (r.value.NonFinite? <==> Seqs.Sum(Sizes(rows)) == 0.0)
    ensures r.Ok? && r.value.Num? ==> r.value.x * Seqs.Sum(Sizes(rows)) == 100.0 * NetLoss(columns, rows).value
  {
    var net :- NetLoss(columns, rows);
    var total := TotalWagered(columns, rows).value;
    Ok(Scale(Divide(net, total), 100.0))
  }

  /** number_of_bets_daily: Σ bet_count. */
  function NumberOfBetsDaily(columns: seq<string>, rows: seq<Bet>): (r: Result<real>)
    ensures r.Fail? <==> "bet_count" !in columns
    ensures r.Fail? ==> r.error == MissingColumn("bet_count")
  {
    var _ :- CheckMeasureData(columns, ["bet_count"]);
    Ok(Seqs.Sum(Counts(rows)))
  }

  /** average_bet_size_daily: Σ bet_size over Σ bet_count; bet_size is checked first. */
  function AverageBetSizeDaily(columns: seq<string>, rows: seq<Bet>): (r: Result<Value>)
    ensures r.Fail? <==> "bet_size" !in columns || "bet_count" !in columns
    ensures r.Fail? ==> r.error == MissingColumn(if "bet_size" !in columns then "bet_size" else "bet_count")
    ensures r.Ok? ==> (r.value.NonFinite? <==> Seqs.Sum(Counts(rows)) == 0.0)
  {
    var _ :- CheckMeasureData(columns, ["bet_size"]);
    var bets :- NumberOfBetsDaily(columns, rows);
    Ok(Divide(Seqs.Sum(Sizes(rows)), bets))
  }

  // ------------------------------------------------------------------ first-month window

  function WithinMonthOf(start: int): Bet -> bool {
    (b: Bet) => b.betTime <= start + FirstMonthSeconds
  }

  /** The bets placed no later than 30 days after the first row's bet (the
      first row in the frame's order, not necessarily the earliest bet). */
  function FirstMonth(rows: seq<Bet>): (w: seq<Bet>)
    requires rows != []
    ensures rows[0] in w && |w| <= |rows|
    ensures forall b :: b in w <==> b in rows && b.betTime <= rows[0].betTime + FirstMonthSeconds
    ensures forall b :: multiset(w)[b] == if b.betTime <= rows[0].betTime + FirstMonthSeconds then multiset(rows)[b] else 0
  {
    Seqs.FilterMembers(rows, WithinMonthOf(rows[0].betTime));
    Seqs.FilterMultiplicity(rows, WithinMonthOf(rows[0].betTime));
    Seqs.Filter(rows, WithinMonthOf(rows[0].betTime))
  }

  /** Whether each row, by position, lies within the first month of the first row. */
  function InFirstMonth(rows: seq<Bet>): (mask: seq<bool>)
    requires rows != []
    ensures |mask| == |rows|
    ensures forall i :: 0 <= i < |rows| ==> (mask[i] <==> rows[i].betTime <= rows[0].betTime + FirstMonthSeconds)
  {
    seq(|rows|, i requires 0 <= i < |rows| => rows[i].betTime <= rows[0].betTime + FirstMonthSeconds)
  }

  /** frequency_daily counts the positions of the frame that lie in the first month. */
  lemma FrequencyDailyPositions(columns: seq<string>, rows: seq<Bet>)
    requires FrequencyDaily(columns, rows).Ok?
    ensures FrequencyDaily(columns, rows).value == Seqs.Count(InFirstMonth(rows), true)
  {
    var p := WithinMonthOf(rows[0].betTime);
    Seqs.FilterCountsMask(rows, p);
    assert Seqs.Map(rows, p) == InFirstMonth(rows);
  }

  /** intensity_daily: the mean bet_count over the first-month window. */
  function IntensityDaily(columns: seq<string>, rows: seq<Bet>): (r: Result<Value>)
    ensures rows == [] ==> r == Fail(IndexError)
    ensures rows != [] && "bet_time" !in columns ==> r == Fail(KeyError("bet_time"))
    ensures rows != [] && "bet_time" in columns && "bet_count" !in columns ==> r == Fail(KeyError("bet_count"))
    ensures r.Ok? <==> rows != [] && "bet_time" in columns && "bet_count" in columns
    ensures r.Ok? ==> r.value.Num?
  {
    if rows == [] then Fail(IndexError)
    else if "bet_time" !in columns then Fail(KeyError("bet_time"))
    else if "bet_count" !in columns then Fail(KeyError("bet_count"))
    else Ok(Num(Seqs.Mean(Counts(FirstMonth(rows)))))
  }

  /** frequency_daily: the number of rows in the first-month window. */
  function FrequencyDaily(columns: seq<string>, rows: seq<Bet>): (r: Result<nat>)
    ensures rows == [] ==> r == Fail(IndexError)
    ensures rows != [] && "bet_time" !in columns ==> r == Fail(KeyError("bet_time"))
    ensures r.Ok? <==> rows != [] && "bet_time" in columns
    ensures r.Ok? ==> 1 <= r.value <= |rows|
  {
    if rows == [] then Fail(IndexError)
    else if "bet_time" !in columns then Fail(KeyError("bet_time"))
    else Ok(|FirstMonth(rows)|)
  }

  /** variability_daily and trajectory_daily: a statistic of the bet sizes in
      the first-month window. The statistic itself (a standard deviation, a
      regression slope) is a parameter of the model. */
  function FirstMonthStatistic(columns: seq<string>, rows: seq<Bet>, statistic: seq<real> -> Value): (r: Result<Value>)
    ensures rows == [] ==> r == Fail(IndexError)
    ensures rows != [] && "bet_time" !in columns ==> r == Fail(KeyError("bet_time"))
    ensures rows != [] && "bet_time" in columns && "bet_size" !in columns ==> r == Fail(KeyError("bet_size"))
    ensures r.Ok? <==> rows != [] && "bet_time" in columns && "bet_size" in columns
  {
    if rows == [] then Fail(IndexError)
    else if "bet_time" !in columns then Fail(KeyError("bet_time"))
    else if "bet_size" !in columns then Fail(KeyError("bet_size"))
    else Ok(statistic(Sizes(FirstMonth(rows))))
  }

  /** The first-month window of daily aggregates whose bet counts all lie in
      [lo, hi] has an intensity in [lo, hi]. */
  lemma IntensityBounds(columns: seq<string>, rows: seq<Bet>, lo: real, hi: real)
    requires IntensityDaily(columns, rows).Ok?
    requires forall b :: b in rows ==> lo <= b.betCount as real <= hi
    ensures lo <= IntensityDaily(columns, rows).value.x <= hi
  {
    var w := FirstMonth(rows);
    forall i | 0 <= i < |w| ensures lo <= Counts(w)[i] <= hi {
      assert w[i] in w;
    }
    Seqs.MeanBounds(Counts(w), lo, hi);
  }

  // ------------------------------------------------------------------ order does not matter

  /** Two frames that agree on which columns exist (apart from the added bet_date)
      and hold the same bets in possibly different order. */
  ghost predicate SameBets(c1: seq<string>, r1: seq<Bet>, c2: seq<string>, r2: seq<Bet>) {
    && (forall x :: x != "bet_date" ==> (x in c1 <==> x in c2))
    && multiset(r1) == multiset(r2)
  }

  lemma SumSame(r1: seq<Bet>, r2: seq<Bet>, f: Bet -> real)
    requires multiset(r1) == multiset(r2)
    ensures Seqs.Sum(Seqs.Map(r1, f)) == Seqs.Sum(Seqs.Map(r2, f))
  {
    Seqs.MapPerm(r1, r2, f);
    Seqs.SumPerm(Seqs.Map(r1, f), Seqs.Map(r2, f));
  }

  /** Sorting the rows or adding the bet_date column changes none of the measures
      that do not window by row position. */
  lemma MeasuresIgnoreOrder(c1: seq<string>, r1: seq<Bet>, c2: seq<string>, r2: seq<Bet>)
    requires SameBets(c1, r1, c2, r2)
    ensures DurationOf(c1, r1) == DurationOf(c2, r2)
    ensures FrequencyOf(c1, r1) == FrequencyOf(c2, r2)
    ensures AverageBetsPerDayOf(c1, r1) == AverageBetsPerDayOf(c2, r2)
    ensures AverageBetsPerDayDailyOf(c1, r1) == AverageBetsPerDayDailyOf(c2, r2)
    ensures NumberOfBets(r1) == NumberOfBets(r2)
    ensures AverageBetSize(c1, r1) == AverageBetSize(c2, r2)
    ensures TotalWagered(c1, r1) == TotalWagered(c2, r2)
    ensures NetLoss(c1, r1) == NetLoss(c2, r2)
    ensures PercentLoss(c1, r1) == PercentLoss(c2, r2)
    ensures NumberOfBetsDaily(c1, r1) == NumberOfBetsDaily(c2, r2)
    ensures AverageBetSizeDaily(c1, r1) == AverageBetSizeDaily(c2, r2)
  {
    RatesIgnoreOrder(c1, r1, c2, r2);
    AmountsIgnoreOrder(c1, r1, c2, r2);
  }

  lemma RatesIgnoreOrder(c1: seq<string>, r1: seq<Bet>, c2: seq<string>, r2: seq<Bet>)
    requires SameBets(c1, r1, c2, r2)
    ensures DurationOf(c1, r1) == DurationOf(c2, r2)
    ensures FrequencyOf(c1, r1) == FrequencyOf(c2, r2)
    ensures AverageBetsPerDayOf(c1, r1) == AverageBetsPerDayOf(c2, r2)
    ensures AverageBetsPerDayDailyOf(c1, r1) == AverageBetsPerDayDailyOf(c2, r2)
    ensures NumberOfBets(r1) == NumberOfBets(r2)
  {
    DurationIgnoresOrder(c1, r1, c2, r2);
    FrequencyIgnoresOrder(c1, r1, c2, r2);
    AveragePerDayIgnoresOrder(c1, r1, c2, r2);
    AveragePerDayDailyIgnoresOrder(c1, r1, c2, r2);
    SameElements(r1, r2);
  }

  lemma FrequencyIgnoresOrder(c1: seq<string>, r1: seq<Bet>, c2: seq<string>, r2: seq<Bet>)
    requires SameBets(c1, r1, c2, r2)
    ensures FrequencyOf(c1, r1) == FrequencyOf(c2, r2)
  {
    DurationIgnoresOrder(c1, r1, c2, r2);
    if DurationOf(c1, r1).Ok? {
      assert ActiveDays(r1) == ActiveDays(r2) by {
        DaysIgnoreOrder(c1, r1, c2, r2);
      }
      FrequencyValue(c1, r1);
      FrequencyValue(c2, r2);
    }
  }

  lemma AveragePerDayIgnoresOrder(c1: seq<string>, r1: seq<Bet>, c2: seq<string>, r2: seq<Bet>)
    requires SameBets(c1, r1, c2, r2)
    ensures AverageBetsPerDayOf(c1, r1) == AverageBetsPerDayOf(c2, r2)
  {
    DurationIgnoresOrder(c1, r1, c2, r2);
    assert ActiveDays(r1) == ActiveDays(r2) by {
      DaysIgnoreOrder(c1, r1, c2, r2);
    }
    assert |r1| == |r2| by {
      SameElements(r1, r2);
    }
  }

  lemma AveragePerDayDailyIgnoresOrder(c1: seq<string>, r1: seq<Bet>, c2: seq<string>, r2: seq<Bet>)
    requires SameBets(c1, r1, c2, r2)
    ensures AverageBetsPerDayDailyOf(c1, r1) == AverageBetsPerDayDailyOf(c2, r2)
  {
    DurationIgnoresOrder(c1, r1, c2, r2);
    assert ActiveDays(r1) == ActiveDays(r2) by {
      DaysIgnoreOrder(c1, r1, c2, r2);
    }
    assert NumberOfBetsDaily(c1, r1) == NumberOfBetsDaily(c2, r2) by {
      SumsIgnoreOrder(c1, r1, c2, r2);
    }
  }

  lemma AmountsIgnoreOrder(c1: seq<string>, r1: seq<Bet>, c2: seq<string>, r2: seq<Bet>)
    requires SameBets(c1, r1, c2, r2)
    ensures AverageBetSize(c1, r1) == AverageBetSize(c2, r2)
    ensures TotalWagered(c1, r1) == TotalWagered(c2, r2)
    ensures NetLoss(c1, r1) == NetLoss(c2, r2)
    ensures PercentLoss(c1, r1) == PercentLoss(c2, r2)
    ensures NumberOfBetsDaily(c1, r1) == NumberOfBetsDaily(c2, r2)
    ensures AverageBetSizeDaily(c1, r1) == AverageBetSizeDaily(c2, r2)
  {
    SumsIgnoreOrder(c1, r1, c2, r2);
    SameElements(r1, r2);
  }

  lemma DaysIgnoreOrder(c1: seq<string>, r1: seq<Bet>, c2: seq<string>, r2: seq<Bet>)
    requires SameBets(c1, r1, c2, r2)
    ensures BetDays(r1) == BetDays(r2)
    ensures ActiveDays(r1) == ActiveDays(r2)
  {
    SameElements(r1, r2);
    forall d ensures d in BetDays(r1) <==> d in BetDays(r2) {
      if d in BetDays(r1) {
        var b := BetOnDay(r1, d);
        BetDayOf(r2, b);
      }
      if d in BetDays(r2) {
        var b := BetOnDay(r2, d);
        BetDayOf(r1, b);
      }
    }
    assert BetDays(r1) == BetDays(r2);
  }

  lemma DurationIgnoresOrder(c1: seq<string>, r1: seq<Bet>, c2: seq<string>, r2: seq<Bet>)
    requires SameBets(c1, r1, c2, r2)
    ensures DurationOf(c1, r1) == DurationOf(c2, r2)
  {
    assert |r1| == |r2| by {
      SameElements(r1, r2);
    }
    assert "bet_time" in c1 <==> "bet_time" in c2;
    DurationDefined(c1, r1);
    DurationDefined(c2, r2);
    if "bet_time" in c1 && r1 != [] {
      assert MinTime(r1) == MinTime(r2) && MaxTime(r1) == MaxTime(r2) by {
        SameElements(r1, r2);
        SameEnds(r1, r2);
      }
      DurationSameEnds(c1, r1, c2, r2);
    }
  }

  lemma DurationSameEnds(c1: seq<string>, r1: seq<Bet>, c2: seq<string>, r2: seq<Bet>)
    requires "bet_time" in c1 && "bet_time" in c2 && r1 != [] && r2 != []
    requires MinTime(r1) == MinTime(r2) && MaxTime(r1) == MaxTime(r2)
    ensures DurationOf(c1, r1) == DurationOf(c2, r2)
  {
    DurationValue(c1, r1);
    DurationValue(c2, r2);
  }

  lemma SumsIgnoreOrder(c1: seq<string>, r1: seq<Bet>, c2: seq<string>, r2: seq<Bet>)
    requires SameBets(c1, r1, c2, r2)
    ensures Seqs.Sum(Sizes(r1)) == Seqs.Sum(Sizes(r2))
    ensures Seqs.Sum(Payouts(r1)) == Seqs.Sum(Payouts(r2))
    ensures Seqs.Sum(Counts(r1)) == Seqs.Sum(Counts(r2))
    ensures CheckMeasureData(c1, ["bet_size"]) == CheckMeasureData(c2, ["bet_size"])
    ensures CheckMeasureData(c1, ["bet_count"]) == CheckMeasureData(c2, ["bet_count"])
    ensures CheckMeasureData(c1, ["bet_size", "payout_size"]) == CheckMeasureData(c2, ["bet_size", "payout_size"])
  {
    SumSame(r1, r2, BetSize);
    SumSame(r1, r2, PayoutSize);
    SumSame(r1, r2, BetCount);
    CheckSameColumns(c1, c2, ["bet_size"]);
    CheckSameColumns(c1, c2, ["bet_count"]);
    CheckSameColumns(c1, c2, ["bet_size", "payout_size"]);
  }

  // ------------------------------------------------------------------ a player's frame, updated in place

  /** The frame handed to duration and frequency, which sort it and reset its index in place. */
  class PlayerBets {
    var columns: seq<string>
    var index: seq<int>
    var rows: seq<Bet>

    ghost predicate Valid()
      reads this
    {
      |index| == |rows|
    }

    constructor (columns: seq<string>, index: seq<int>, rows: seq<Bet>)
      requires |index| == |rows|
      ensures Valid()
      ensures this.columns == columns && this.index == index && this.rows == rows
    {
      this.columns := columns;
      this.index := index;
      this.rows := rows;
    }

    /** duration; a frame holding bet_time is left sorted by time with index 0..n-1. */
    method Duration() returns (r: Result<int>)
      requires Valid()
      modifies this
      ensures Valid()
      ensures r == DurationOf(old(columns), old(rows))
      ensures columns == old(columns)
      ensures "bet_time" in columns ==>
        TimeSorted(rows) && multiset(rows) == multiset(old(rows)) && index == Positions(|rows|)
      ensures "bet_time" !in columns ==> rows == old(rows) && index == old(index)
    {
      ghost var given, unsorted := columns, rows;
      DurationDefined(given, unsorted);
      var _ :- CheckMeasureData(columns, ["bet_time"]);
      var sorted := SortByTime(rows);
      rows := sorted;
      index := Positions(|sorted|);
      if |sorted| == 0 {
        return Fail(IndexError);
      }
      var firstDay := sorted[0].betTime;
      var lastDay := sorted[|sorted| - 1].betTime;
      DurationOfSorted(given, unsorted, sorted);
      r := Ok(Day(lastDay) - Day(firstDay) + 1);
    }

    /** frequency: counts, day by day from the first bet's date, the days that have a bet. */
    method Frequency() returns (r: Result<real>)
      requires Valid()
      modifies this
      ensures Valid()
      ensures r == FrequencyOf(old(columns), old(rows))
      ensures "bet_time" in old(columns) ==>
        TimeSorted(rows) && multiset(rows) == multiset(old(rows)) && index == Positions(|rows|)
      ensures "bet_time" !in old(columns) ==> rows == old(rows) && index == old(index)
      ensures columns == if r.Ok? && "bet_date" !in old(columns) then old(columns) + ["bet_date"] else old(columns)
    {
      var _ :- CheckMeasureData(columns, ["bet_time"]);
      ghost var original := rows;
      ghost var given := columns;
      rows := SortByTime(rows);
      index := Positions(|rows|);
      assert DurationOf(given, rows) == DurationOf(given, original) by {
        DurationIgnoresOrder(given, rows, given, original);
      }
      var age :- Duration();
      var sorted := rows;
      assert DurationOf(given, sorted) == Ok(age) && FrequencyOf(given, sorted) == FrequencyOf(given, original) by {
        RatesIgnoreOrder(given, sorted, given, original);
      }
      assert sorted != [] by {
        DurationDefined(given, sorted);
      }
      if "bet_date" !in columns {
        columns := columns + ["bet_date"];
      }
      var firstDay := sorted[0].betTime;
      var bettingDays := CountBettingDays(sorted, firstDay, age);
      assert FrequencyOf(given, sorted) == Ok(bettingDays as real / age as real * 100.0) by {
        FrequencyFromCount(given, sorted, firstDay, age, bettingDays);
      }
      r := Ok(bettingDays as real / age as real * 100.0);
    }

    /** average_bets_per_day: rows over the betting days recovered from frequency and duration,
        which leave the frame sorted, re-indexed and with a bet_date column. */
    method AverageBetsPerDay() returns (r: Result<real>)
      requires Valid()
      modifies this
      ensures Valid()
      ensures r == AverageBetsPerDayOf(old(columns), old(rows))
      ensures SameBets(columns, rows, old(columns), old(rows))
      ensures "bet_time" in old(columns) ==>
        TimeSorted(rows) && multiset(rows) == multiset(old(rows)) && index == Positions(|rows|)
      ensures "bet_time" !in old(columns) ==> rows == old(rows) && index == old(index)
      ensures columns == if DurationOf(old(columns), old(rows)).Ok? && "bet_date" !in old(columns)
        then old(columns) + ["bet_date"] else old(columns)
    {
      ghost var given := columns;
      ghost var original := rows;
      var age :- Duration();
      var frequency := RecoveredFrequency(given, original);
      var bettingDays := (frequency / 100.0) * age as real;
      BettingDaysRecovered(given, original, frequency, age);
      assert |rows| == |original| by {
        assert |multiset(rows)| == |multiset(original)|;
      }
      r := Ok(|rows| as real / bettingDays);
      AveragePerActiveDay(given, original, bettingDays);
    }

    /** average_bets_per_day_daily: Σ bet_count over the betting days; the frame is left as
        average_bets_per_day leaves it. */
    method AverageBetsPerDayDaily() returns (r: Result<real>)
      requires Valid()
      modifies this
      ensures Valid()
      ensures r == AverageBetsPerDayDailyOf(old(columns), old(rows))
      ensures SameBets(columns, rows, old(columns), old(rows))
      ensures "bet_time" in old(columns) ==>
        TimeSorted(rows) && multiset(rows) == multiset(old(rows)) && index == Positions(|rows|)
      ensures "bet_time" !in old(columns) ==> rows == old(rows) && index == old(index)
      ensures columns == if DurationOf(old(columns), old(rows)).Ok? && "bet_date" !in old(columns)
        then old(columns) + ["bet_date"] else old(columns)
    {
      ghost var given := columns;
      ghost var original := rows;
      var age :- Duration();
      var frequency := RecoveredFrequency(given, original);
      var bettingDays := (frequency / 100.0) * age as real;
      BettingDaysRecovered(given, original, frequency, age);
      assert NumberOfBetsDaily(columns, rows) == NumberOfBetsDaily(given, original) by {
        SumsIgnoreOrder(columns, rows, given, original);
      }
      DailyPerActiveDay(given, original, bettingDays);
      var bets :- NumberOfBetsDaily(columns, rows);
      r := Ok(bets / bettingDays);
    }

    /** The frequency call after a successful duration: it cannot fail, and the
        reordering done so far does not change its value. */
    method RecoveredFrequency(ghost given: seq<string>, ghost original: seq<Bet>) returns (frequency: real)
      requires Valid() && "bet_time" in columns && columns == given
      requires DurationOf(given, original).Ok? && multiset(rows) == multiset(original)
      modifies this
      ensures Valid()
      ensures FrequencyOf(given, original) == Ok(frequency)
      ensures SameBets(columns, rows, given, original)
      ensures TimeSorted(rows) && index == Positions(|rows|)
      ensures columns == if "bet_date" !in given then given + ["bet_date"] else given
    {
      assert FrequencyOf(given, rows) == FrequencyOf(given, original) by {
        RatesIgnoreOrder(given, rows, given, original);
      }
      ghost var before := rows;
      var fr := Frequency();
      assert fr.Ok?;
      frequency := fr.value;
      assert multiset(rows) == multiset(before);
    }
  }

  /** frequency's loop: for each of the `age` days from the first bet's date,
      whether any bet carries that date. */
  method CountBettingDays(rows: seq<Bet>, firstDay: int, age: nat) returns (bettingDays: nat)
    ensures bettingDays == |DaysWithin(BetDays(rows), Day(firstDay), Day(firstDay) + age)|
  {
    var d0 := Day(firstDay);
    bettingDays := 0;
    for day := 0 to age
      invariant bettingDays == |DaysWithin(BetDays(rows), d0, d0 + day)|
    {
      var currentDate := Day(firstDay + day * SecondsPerDay);
      DayShift(firstDay, day);
      var betsToday := Seqs.Filter(rows, OnDay(currentDate));
      BetsOnDay(rows, currentDate);
      DaysWithinStep(BetDays(rows), d0, d0 + day);
      if |betsToday| != 0 {
        bettingDays := bettingDays + 1;
      }
    }
  }

  /** The days of a set that lie in [lo, hi). */
  function DaysWithin(days: set<int>, lo: int, hi: int): set<int> {
    set d | d in days && lo <= d < hi
  }

  lemma DaysWithinStep(days: set<int>, lo: int, hi: int)
    requires lo <= hi
    ensures |DaysWithin(days, lo, hi + 1)| == |DaysWithin(days, lo, hi)| + if hi in days then 1 else 0
  {
    var before := DaysWithin(days, lo, hi);
    var after := DaysWithin(days, lo, hi + 1);
    assert hi !in before;
    if hi in days {
      forall d ensures d in after <==> d in before + {hi} {
      }
      assert after == before + {hi};
      assert |before + {hi}| == |before| + 1;
    } else {
      forall d ensures d in after <==> d in before {
      }
      assert after == before;
    }
  }

  /** What frequency's loop counts over sorted rows gives the frequency. */
  lemma FrequencyFromCount(columns: seq<string>, rows: seq<Bet>, firstDay: int, age: int, bettingDays: nat)
    requires rows != [] && TimeSorted(rows) && DurationOf(columns, rows) == Ok(age)
    requires firstDay == rows[0].betTime
    requires bettingDays == |DaysWithin(BetDays(rows), Day(firstDay), Day(firstDay) + age)|
    ensures FrequencyOf(columns, rows) == Ok(bettingDays as real / age as real * 100.0)
  {
    assert bettingDays == ActiveDays(rows) by {
      DurationOfSorted(columns, rows, rows);
      AllDaysCounted(rows, age);
    }
    FrequencyFromDays(columns, rows, age, bettingDays);
  }

  lemma FrequencyFromDays(columns: seq<string>, rows: seq<Bet>, age: int, bettingDays: nat)
    requires DurationOf(columns, rows) == Ok(age)
    requires bettingDays == ActiveDays(rows)
    ensures FrequencyOf(columns, rows) == Ok(bettingDays as real / age as real * 100.0)
  {
    FrequencyValue(columns, rows);
  }

  lemma FrequencyValue(columns: seq<string>, rows: seq<Bet>)
    requires DurationOf(columns, rows).Ok?
    ensures FrequencyOf(columns, rows)
      == Ok(ActiveDays(rows) as real / DurationOf(columns, rows).value as real * 100.0)
  {
  }

  /** Counting from the first bet's date for `duration` days meets every bet day. */
  lemma AllDaysCounted(rows: seq<Bet>, age: int)
    requires rows != [] && TimeSorted(rows)
    requires Day(rows[0].betTime) + age == Day(rows[|rows| - 1].betTime) + 1
    ensures |DaysWithin(BetDays(rows), Day(rows[0].betTime), Day(rows[0].betTime) + age)| == ActiveDays(rows)
  {
    var lo, hi := Day(rows[0].betTime), Day(rows[0].betTime) + age;
    assert BetDays(rows) <= Interval(lo, hi) by {
      SortedEnds(rows, rows);
      BetDaysWithin(rows);
    }
    AllWithin(BetDays(rows), lo, hi);
  }

  lemma AllWithin(days: set<int>, lo: int, hi: int)
    requires days <= Interval(lo, hi)
    ensures DaysWithin(days, lo, hi) == days
  {
  }

  /** Some row falls on day d exactly when d is a bet day. */
  lemma BetsOnDay(rows: seq<Bet>, d: int)
    ensures |Seqs.Filter(rows, OnDay(d))| != 0 <==> d in BetDays(rows)
  {
    var today := Seqs.Filter(rows, OnDay(d));
    Seqs.FilterMembers(rows, OnDay(d));
    if |today| != 0 {
      assert today[0] in today;
      BetDayOf(rows, today[0]);
    }
    if d in BetDays(rows) {
      var b := BetOnDay(rows, d);
      assert b in today;
    }
  }

  /** The RangeIndex 0..n-1 that reset_index(drop=True) installs. */
  function Positions(n: nat): (p: seq<int>)
    ensures |p| == n && forall i :: 0 <= i < n ==> p[i] == i
  {
    seq(n, i => i)
  }

  function OnDay(d: int): Bet -> bool {
    (b: Bet) => Day(b.betTime) == d
  }

  /** (frequency / 100) · duration is the number of active days. */
  lemma BettingDaysRecovered(columns: seq<string>, rows: seq<Bet>, frequency: real, age: int)
    requires FrequencyOf(columns, rows) == Ok(frequency) && DurationOf(columns, rows) == Ok(age)
    ensures frequency / 100.0 * age as real == ActiveDays(rows) as real
    ensures ActiveDays(rows) > 0
  {
    var part := ActiveDays(rows) as real;
    var whole := age as real;
    var f := frequency;
    assert whole > 0.0 by {
      DurationAtLeastOneDay(columns, rows);
    }
    assert f == part / whole * 100.0 by {
      FrequencyValue(columns, rows);
    }
    PercentTimesWhole(f, part, whole);
    assert rows != [] by {
      DurationDefined(columns, rows);
    }
    ActiveDaysPositive(rows);
  }

  /** average_bets_per_day over the active-day count. */
  lemma AveragePerActiveDay(columns: seq<string>, rows: seq<Bet>, bettingDays: real)
    requires DurationOf(columns, rows).Ok? && bettingDays == ActiveDays(rows) as real
    ensures AverageBetsPerDayOf(columns, rows) == Ok(|rows| as real / bettingDays)
  {
  }

  /** average_bets_per_day_daily over the active-day count, failing as number_of_bets_daily does. */
  lemma DailyPerActiveDay(columns: seq<string>, rows: seq<Bet>, bettingDays: real)
    requires DurationOf(columns, rows).Ok? && bettingDays == ActiveDays(rows) as real
    ensures NumberOfBetsDaily(columns, rows).Fail? ==>
      AverageBetsPerDayDailyOf(columns, rows) == Fail(NumberOfBetsDaily(columns, rows).error)
    ensures NumberOfBetsDaily(columns, rows).Ok? ==>
      AverageBetsPerDayDailyOf(columns, rows) == Ok(NumberOfBetsDaily(columns, rows).value / bettingDays)
  {
  }

  /** A share computed in percent, turned back into a part of its whole. */
  lemma PercentTimesWhole(f: real, part: real, whole: real)
    requires whole > 0.0 && f == part / whole * 100.0
    ensures f / 100.0 * whole == part
  {
    var q := part / whole;
    assert q * 100.0 / 100.0 == q;
    assert q * whole == part;
  }

  // ------------------------------------------------------------------ the test fixture

  /** Four bets by one player on four consecutive days, starting at any instant. */
  function Fixture(t0: int): seq<Bet> {
    var p := Str("test_player");
    [ Bet(p, t0, 2.0, 0.0, 0), Bet(p, t0 + SecondsPerDay, 2.0, 4.0, 0),
      Bet(p, t0 + 2 * SecondsPerDay, 3.0, 0.0, 0), Bet(p, t0 + 3 * SecondsPerDay, 4.0, 8.0, 0) ]
  }

  const FixtureColumns: seq<string> := ["player_id", "bet_time", "bet_size", "payout_size"]

  /** The fixture spans four days and bets on each of them. */
  lemma FixtureDays(t0: int)
    ensures MinTime(Fixture(t0)) == t0 && MaxTime(Fixture(t0)) == t0 + 3 * SecondsPerDay
    ensures ActiveDays(Fixture(t0)) == 4
  {
    FixtureFirst(t0);
    FixtureLast(t0);
    FixtureActive(t0);
  }

  lemma FixtureFirst(t0: int)
    ensures MinTime(Fixture(t0)) == t0
  {
    var rows := Fixture(t0);
    forall j | 0 <= j < 4 ensures t0 <= rows[j].betTime {
      assert j == 0 || j == 1 || j == 2 || j == 3;
    }
    MinTimeAt(rows, 0);
  }

  lemma FixtureLast(t0: int)
    ensures MaxTime(Fixture(t0)) == t0 + 3 * SecondsPerDay
  {
    var rows := Fixture(t0);
    forall j | 0 <= j < 4 ensures rows[j].betTime <= t0 + 3 * SecondsPerDay {
      assert j == 0 || j == 1 || j == 2 || j == 3;
    }
    MaxTimeAt(rows, 3);
  }

  lemma FixtureActive(t0: int)
    ensures ActiveDays(Fixture(t0)) == 4
  {
    var d := Day(t0);
    FixtureBetDays(t0);
    FourDays(d);
  }

  lemma FourDays(d: int)
    ensures |{d, d + 1, d + 2, d + 3}| == 4
  {
    var a := {d};
    var b := a + {d + 1};
    var c := b + {d + 2};
    assert |a| == 1;
    assert d + 1 !in a;
    assert |b| == 2;
    assert d + 2 !in b;
    assert |c| == 3;
    assert d + 3 !in c;
    assert |c + {d + 3}| == 4;
    assert c + {d + 3} == {d, d + 1, d + 2, d + 3};
  }

  lemma FixtureBetDays(t0: int)
    ensures BetDays(Fixture(t0)) == {Day(t0), Day(t0) + 1, Day(t0) + 2, Day(t0) + 3}
  {
    var rows := Fixture(t0);
    DayShift(t0, 1);
    DayShift(t0, 2);
    DayShift(t0, 3);
    BetDayOf(rows, rows[0]);
    BetDayOf(rows, rows[1]);
    BetDayOf(rows, rows[2]);
    BetDayOf(rows, rows[3]);
    forall d | d in BetDays(rows) ensures d in {Day(t0), Day(t0) + 1, Day(t0) + 2, Day(t0) + 3} {
      var b := BetOnDay(rows, d);
      assert b == rows[0] || b == rows[1] || b == rows[2] || b == rows[3];
    }
  }

  /** The expected day-based measures of the test module's fixture. */
  lemma FixtureRates(t0: int)
    ensures DurationOf(FixtureColumns, Fixture(t0)) == Ok(4)
    ensures FrequencyOf(FixtureColumns, Fixture(t0)) == Ok(100.0)
    ensures NumberOfBets(Fixture(t0)) == 4
    ensures AverageBetsPerDayOf(FixtureColumns, Fixture(t0)) == Ok(1.0)
  {
    FixtureDuration(t0);
    FixtureFrequency(t0);
    FixtureAverage(t0);
  }

  lemma FixtureDuration(t0: int)
    ensures DurationOf(FixtureColumns, Fixture(t0)) == Ok(4)
  {
    var rows := Fixture(t0);
    forall j | 0 <= j < 4 ensures t0 <= rows[j].betTime <= t0 + 3 * SecondsPerDay {
      assert j == 0 || j == 1 || j == 2 || j == 3;
    }
    DayShift(t0, 3);
    assert "bet_time" in FixtureColumns;
    DurationSpan(FixtureColumns, rows, 0, 3);
  }

  /** Duration counts the days from an earliest row to a latest one. */
  lemma DurationSpan(columns: seq<string>, rows: seq<Bet>, i: int, j: int)
    requires "bet_time" in columns && 0 <= i < |rows| && 0 <= j < |rows|
    requires forall k :: 0 <= k < |rows| ==> rows[i].betTime <= rows[k].betTime <= rows[j].betTime
    ensures DurationOf(columns, rows) == Ok(Day(rows[j].betTime) - Day(rows[i].betTime) + 1)
  {
    MinTimeAt(rows, i);
    MaxTimeAt(rows, j);
    DurationValue(columns, rows);
  }

  /** Over rows sorted by time, duration reads the first and the last row. */
  lemma DurationOfSorted(columns: seq<string>, rows: seq<Bet>, sorted: seq<Bet>)
    requires "bet_time" in columns && rows != []
    requires TimeSorted(sorted) && multiset(sorted) == multiset(rows)
    ensures sorted != []
    ensures DurationOf(columns, rows) == Ok(Day(sorted[|sorted| - 1].betTime) - Day(sorted[0].betTime) + 1)
  {
    SortedEnds(sorted, rows);
    DurationValue(columns, rows);
  }

  lemma DurationValue(columns: seq<string>, rows: seq<Bet>)
    requires "bet_time" in columns && rows != []
    ensures DurationOf(columns, rows) == Ok(Day(MaxTime(rows)) - Day(MinTime(rows)) + 1)
  {
    DurationDefined(columns, rows);
  }

  lemma FixtureFrequency(t0: int)
    ensures FrequencyOf(FixtureColumns, Fixture(t0)) == Ok(100.0)
  {
    var rows := Fixture(t0);
    FixtureDuration(t0);
    FixtureActive(t0);
    FrequencyValue(FixtureColumns, rows);
    assert 4 as real / 4 as real * 100.0 == 100.0;
  }

  lemma FixtureAverage(t0: int)
    ensures AverageBetsPerDayOf(FixtureColumns, Fixture(t0)) == Ok(1.0)
  {
    var rows := Fixture(t0);
    FixtureDuration(t0);
    FixtureActive(t0);
    assert |rows| == 4;
    assert AverageBetsPerDayOf(FixtureColumns, rows) == Ok(4 as real / 4 as real);
  }

  /** The expected money measures of the test module's fixture. */
  lemma FixtureAmounts(t0: int)
    ensures AverageBetSize(FixtureColumns, Fixture(t0)) == Ok(Num(2.75))
    ensures TotalWagered(FixtureColumns, Fixture(t0)) == Ok(11.0)
    ensures NetLoss(FixtureColumns, Fixture(t0)) == Ok(-1.0)
    ensures PercentLoss(FixtureColumns, Fixture(t0)) == Ok(Num(-100.0 / 11.0))
  {
    var rows := Fixture(t0);
    assert Sizes(rows) == [2.0, 2.0, 3.0, 4.0];
    assert Payouts(rows) == [0.0, 4.0, 0.0, 8.0];
    FourSum(2.0, 2.0, 3.0, 4.0);
    FourSum(0.0, 4.0, 0.0, 8.0);
    assert CheckMeasureData(FixtureColumns, ["bet_size"]) == Ok(());
    assert CheckMeasureData(FixtureColumns, ["bet_size", "payout_size"]) == Ok(());
  }

  lemma FourSum(a: real, b: real, c: real, d: real)
    ensures Seqs.Sum([a, b, c, d]) == a + b + c + d
  {
    assert [d][1..] == [];
    assert Seqs.Sum([d]) == d;
    assert [c, d][1..] == [d];
    assert Seqs.Sum([c, d]) == c + d;
    assert [b, c, d][1..] == [c, d];
    assert Seqs.Sum([b, c, d]) == b + c + d;
    assert [a, b, c, d][1..] == [b, c, d];
  }
}
