/** The measures-table builders of gamba/studies.py: one row of measures per
    distinct player, computed from that player's bets only. */
module Studies {
  import opened Tables
  import Seqs
  import opened Measures

  function PlayerOf(b: Bet): Value { b.playerId }

  /** The player_id column of the bets table. */
  function PlayerIds(bets: seq<Bet>): seq<Value> { Seqs.Map(bets, PlayerOf) }

  function OfPlayer(id: Value): Bet -> bool {
    (b: Bet) => b.playerId == id
  }

  /** all_player_bets[all_player_bets['player_id'] == id]: the player's bets in table order. */
  function RowsOf(bets: seq<Bet>, id: Value): seq<Bet> {
    Seqs.Filter(bets, OfPlayer(id))
  }

  /** A listed player has bets, all of them the player's, all taken from the table. */
  lemma RowsOfPlayer(bets: seq<Bet>, id: Value)
    ensures forall b :: b in RowsOf(bets, id) <==> b in bets && b.playerId == id
    ensures forall i :: 0 <= i < |RowsOf(bets, id)| ==> RowsOf(bets, id)[i].playerId == id
    ensures RowsOf(bets, id) != [] <==> id in PlayerIds(bets)
  {
    var mine := RowsOf(bets, id);
    Seqs.FilterMembers(bets, OfPlayer(id));
    if id in PlayerIds(bets) {
      var i :| 0 <= i < |bets| && PlayerIds(bets)[i] == id;
      assert bets[i] in mine;
    }
    if mine != [] {
      assert mine[0] in bets;
      var i :| 0 <= i < |bets| && bets[i] == mine[0];
      assert PlayerIds(bets)[i] == id;
    }
  }

  /** Appending one value to each of the parallel column lists. */
  function AppendEach(lists: seq<seq<Value>>, row: seq<Value>): (r: seq<seq<Value>>)
    requires |row| == |lists|
    ensures |r| == |lists|
    ensures forall c :: 0 <= c < |lists| ==> r[c] == lists[c] + [row[c]]
  {
    seq(|lists|, c requires 0 <= c < |lists| => lists[c] + [row[c]])
  }

  /** A measures table: the given columns, a fresh RangeIndex, and a player_id
      column that lists every player of `bets` exactly once. */
  ghost predicate PlayerTable(t: Table, names: seq<string>, bets: seq<Bet>)
    requires |names| > 0 && names[0] == "player_id"
  {
    && t.names == names
    && Valid(t)
    && Labels(t) == RangeIndex(|t.rows|)
    && Seqs.Enumerates(Column(t, "player_id"), PlayerIds(bets))
  }

  // ------------------------------------------------------------------ LaBrie

  const LaBrieColumns: seq<string> := ["player_id", "duration", "frequency", "num_bets",
    "average_bets_per_day", "average_bet_size", "total_wagered", "net_loss", "percent_loss"]

  /** The columns the LaBrie measures check for, in the order the calls check them. */
  function LaBrieRequired(daily: bool): seq<string> {
    if daily then ["bet_time", "bet_count", "bet_size", "payout_size"]
    else ["bet_time", "bet_size", "payout_size"]
  }

  /** The LaBrie row of one player's bets, field by field in the order the loop
      body computes them; `daily` selects the bet_count variants of the three
      count-based measures. */
  function LaBrieRowOf(columns: seq<string>, rows: seq<Bet>, daily: bool): (r: Result<seq<Value>>)
    ensures r.Ok? ==> rows != [] && |r.value| == |LaBrieColumns| && r.value[0] == rows[0].playerId
  {
    if rows == [] then Fail(IndexError)
    else
      var duration :- DurationOf(columns, rows);
      var frequency := FrequencyOf(columns, rows).value;
      var counts :- CountMeasures(columns, rows, daily);
      var money :- MoneyMeasures(columns, rows);
      Ok([rows[0].playerId, Num(duration as real), Num(frequency), Num(counts.0), Num(counts.1),
          counts.2, Num(money.0), Num(money.1), money.2])
  }

  /** num_bets, average_bets_per_day and average_bet_size, in the variant `daily` selects. */
  function CountMeasures(columns: seq<string>, rows: seq<Bet>, daily: bool): (r: Result<(real, real, Value)>)
    requires DurationOf(columns, rows).Ok?
    ensures r.Ok? ==> "bet_size" in columns
  {
    var numBets :- if daily then NumberOfBetsDaily(columns, rows) else Ok(NumberOfBets(rows) as real);
    var perDay := (if daily then AverageBetsPerDayDailyOf(columns, rows) else AverageBetsPerDayOf(columns, rows)).value;
    var size :- if daily then AverageBetSizeDaily(columns, rows) else AverageBetSize(columns, rows);
    Ok((numBets, perDay, size))
  }

  /** total_wagered, net_loss and percent_loss. */
  function MoneyMeasures(columns: seq<string>, rows: seq<Bet>): Result<(real, real, Value)>
    requires "bet_size" in columns
  {
    var total := TotalWagered(columns, rows).value;
    var net :- NetLoss(columns, rows);
    var percent := PercentLoss(columns, rows).value;
    Ok((total, net, percent))
  }

  /** A player's LaBrie row fails exactly when a required column is missing, with
      the error of the first one missing. */
  lemma LaBrieRowChecks(columns: seq<string>, rows: seq<Bet>, daily: bool)
    requires rows != []
    ensures LaBrieRowOf(columns, rows, daily).Fail? <==> CheckMeasureData(columns, LaBrieRequired(daily)).Fail?
    ensures LaBrieRowOf(columns, rows, daily).Fail? ==>
      LaBrieRowOf(columns, rows, daily).error == CheckMeasureData(columns, LaBrieRequired(daily)).error
  {
    DurationDefined(columns, rows);
    if daily {
      FirstMissing4(columns, "bet_time", "bet_count", "bet_size", "payout_size");
    } else {
      FirstMissing3(columns, "bet_time", "bet_size", "payout_size");
    }
  }

  lemma FirstMissing3(columns: seq<string>, a: string, b: string, c: string)
    ensures CheckMeasureData(columns, [a, b, c]) ==
      if a !in columns then Fail(MissingColumn(a))
      else if b !in columns then Fail(MissingColumn(b))
      else if c !in columns then Fail(MissingColumn(c))
      else Ok(())
  {
    CheckFirst(columns, a, [b, c]);
    CheckFirst(columns, b, [c]);
    CheckFirst(columns, c, []);
  }

  /** check_measure_data looks at the first required column before the rest. */
  lemma CheckFirst(columns: seq<string>, a: string, rest: seq<string>)
    ensures CheckMeasureData(columns, [a] + rest) ==
      if a !in columns then Fail(MissingColumn(a)) else CheckMeasureData(columns, rest)
  {
    assert ([a] + rest)[1..] == rest;
  }

  lemma FirstMissing4(columns: seq<string>, a: string, b: string, c: string, d: string)
    ensures CheckMeasureData(columns, [a, b, c, d]) ==
      if a !in columns then Fail(MissingColumn(a))
      else if b !in columns then Fail(MissingColumn(b))
      else if c !in columns then Fail(MissingColumn(c))
      else if d !in columns then Fail(MissingColumn(d))
      else Ok(())
  {
    CheckFirst(columns, a, [b, c, d]);
    FirstMissing3(columns, b, c, d);
  }

  /** The daily flag switches only num_bets, average_bets_per_day and
      average_bet_size; the other six columns agree. */
  lemma DailySwitchesThreeColumns(columns: seq<string>, rows: seq<Bet>)
    requires LaBrieRowOf(columns, rows, true).Ok? && LaBrieRowOf(columns, rows, false).Ok?
    ensures var a, b := LaBrieRowOf(columns, rows, true).value, LaBrieRowOf(columns, rows, false).value;
      a[..3] == b[..3] && a[6..] == b[6..]
  {
    var duration := DurationOf(columns, rows);
    assert rows != [] && duration.Ok?;
    var frequency := FrequencyOf(columns, rows).value;
    var daily, plain := CountMeasures(columns, rows, true), CountMeasures(columns, rows, false);
    assert daily.Ok? && plain.Ok?;
    var money := MoneyMeasures(columns, rows);
    assert money.Ok?;
    var x0, x1, x2 := rows[0].playerId, Num(duration.value as real), Num(frequency);
    var x6, x7, x8 := Num(money.value.0), Num(money.value.1), money.value.2;
    assert LaBrieRowOf(columns, rows, true).value
      == [x0, x1, x2, Num(daily.value.0), Num(daily.value.1), daily.value.2, x6, x7, x8];
    assert LaBrieRowOf(columns, rows, false).value
      == [x0, x1, x2, Num(plain.value.0), Num(plain.value.1), plain.value.2, x6, x7, x8];
    ThreeParts(x0, x1, x2, Num(daily.value.0), Num(daily.value.1), daily.value.2, x6, x7, x8);
    ThreeParts(x0, x1, x2, Num(plain.value.0), Num(plain.value.1), plain.value.2, x6, x7, x8);
  }

  lemma ThreeParts(x0: Value, x1: Value, x2: Value, x3: Value, x4: Value, x5: Value, x6: Value, x7: Value, x8: Value)
    ensures var r := [x0, x1, x2, x3, x4, x5, x6, x7, x8];
      r[..3] == [x0, x1, x2] && r[6..] == [x6, x7, x8]
  {
  }

  /** Whatever the daily variant computes, the plain variant computes too. */
  lemma DailyNeedsMore(columns: seq<string>, rows: seq<Bet>)
    requires rows != []
    ensures LaBrieRowOf(columns, rows, true).Ok? ==> LaBrieRowOf(columns, rows, false).Ok?
  {
    LaBrieRowChecks(columns, rows, true);
    LaBrieRowChecks(columns, rows, false);
  }

  /** The loop body of calculate_labrie_measures for one player: the measures
      are called in order on the player's copy, which duration sorts in place. */
  method PlayerLaBrie(columns: seq<string>, rows: seq<Bet>, daily: bool) returns (r: Result<seq<Value>>)
    requires rows != []
    ensures r == LaBrieRowOf(columns, rows, daily)
  {
    var playerBets := new PlayerBets(columns, Positions(|rows|), rows);
    var playerId := rows[0].playerId;
    var duration :- playerBets.Duration();
    ghost var c1, r1 := playerBets.columns, playerBets.rows;
    var fr := playerBets.Frequency();
    assert fr == FrequencyOf(columns, rows) && fr.Ok? by {
      RatesIgnoreOrder(c1, r1, columns, rows);
    }
    var frequency := fr.value;
    SameBetsTrans(playerBets.columns, playerBets.rows, c1, r1, columns, rows);
    var counts :- PlayerCounts(playerBets, columns, rows, daily);
    var money :- PlayerMoney(playerBets, columns, rows);
    r := Ok([playerId, Num(duration as real), Num(frequency), Num(counts.0), Num(counts.1),
             counts.2, Num(money.0), Num(money.1), money.2]);
  }

  /** The daily-dependent part of the loop body. */
  method PlayerCounts(playerBets: PlayerBets, ghost columns: seq<string>, ghost rows: seq<Bet>, daily: bool)
    returns (r: Result<(real, real, Value)>)
    requires playerBets.Valid() && DurationOf(columns, rows).Ok?
    requires SameBets(playerBets.columns, playerBets.rows, columns, rows)
    modifies playerBets
    ensures playerBets.Valid() && SameBets(playerBets.columns, playerBets.rows, columns, rows)
    ensures r == CountMeasures(columns, rows, daily)
  {
    ghost var c0, r0 := playerBets.columns, playerBets.rows;
    var numBets: real;
    var perDay: real;
    if daily {
      assert NumberOfBetsDaily(c0, r0) == NumberOfBetsDaily(columns, rows) by {
        SumsIgnoreOrder(c0, r0, columns, rows);
      }
      numBets :- NumberOfBetsDaily(playerBets.columns, playerBets.rows);
      var pd := playerBets.AverageBetsPerDayDaily();
      assert pd == AverageBetsPerDayDailyOf(columns, rows) && pd.Ok? by {
        RatesIgnoreOrder(c0, r0, columns, rows);
      }
      perDay := pd.value;
    } else {
      numBets := NumberOfBets(playerBets.rows) as real;
      assert numBets == NumberOfBets(rows) as real by {
        RatesIgnoreOrder(c0, r0, columns, rows);
      }
      var pd := playerBets.AverageBetsPerDay();
      assert pd == AverageBetsPerDayOf(columns, rows) && pd.Ok? by {
        RatesIgnoreOrder(c0, r0, columns, rows);
      }
      perDay := pd.value;
    }
    SameBetsTrans(playerBets.columns, playerBets.rows, c0, r0, columns, rows);
    assert AverageBetSizeDaily(playerBets.columns, playerBets.rows) == AverageBetSizeDaily(columns, rows)
      && AverageBetSize(playerBets.columns, playerBets.rows) == AverageBetSize(columns, rows) by {
      AmountsIgnoreOrder(playerBets.columns, playerBets.rows, columns, rows);
    }
    var size :- if daily then AverageBetSizeDaily(playerBets.columns, playerBets.rows)
      else AverageBetSize(playerBets.columns, playerBets.rows);
    r := Ok((numBets, perDay, size));
  }

  /** The last three measures of the loop body; they read the frame only. */
  method PlayerMoney(playerBets: PlayerBets, ghost columns: seq<string>, ghost rows: seq<Bet>)
    returns (r: Result<(real, real, Value)>)
    requires "bet_size" in columns && SameBets(playerBets.columns, playerBets.rows, columns, rows)
    ensures r == MoneyMeasures(columns, rows)
  {
    assert TotalWagered(playerBets.columns, playerBets.rows) == TotalWagered(columns, rows)
      && NetLoss(playerBets.columns, playerBets.rows) == NetLoss(columns, rows)
      && PercentLoss(playerBets.columns, playerBets.rows) == PercentLoss(columns, rows) by {
      AmountsIgnoreOrder(playerBets.columns, playerBets.rows, columns, rows);
    }
    var total := TotalWagered(playerBets.columns, playerBets.rows).value;
    var net :- NetLoss(playerBets.columns, playerBets.rows);
    var percent := PercentLoss(playerBets.columns, playerBets.rows).value;
    r := Ok((total, net, percent));
  }

  lemma SameBetsTrans(c1: seq<string>, r1: seq<Bet>, c2: seq<string>, r2: seq<Bet>, c3: seq<string>, r3: seq<Bet>)
    requires SameBets(c1, r1, c2, r2) && SameBets(c2, r2, c3, r3)
    ensures SameBets(c1, r1, c3, r3)
  {
  }

  /** The rows of a LaBrie table are the LaBrie rows of the players they name. */
  ghost predicate LaBrieTable(t: Table, columns: seq<string>, bets: seq<Bet>, daily: bool) {
    && PlayerTable(t, LaBrieColumns, bets)
    && forall k :: 0 <= k < |t.rows| ==> LaBrieRowOf(columns, RowsOf(bets, t.rows[k].cells[0]), daily) == Ok(t.rows[k].cells)
  }

  /** calculate_labrie_measures: the player_id filter fails first on a table
      without that column; then the first player's measures fail when a
      required column is missing; otherwise one row per distinct player. */
  method CalculateLaBrieMeasures(columns: seq<string>, allPlayerBets: seq<Bet>, daily: bool) returns (r: Result<Table>)
    ensures "player_id" !in columns ==> r == Fail(KeyError("player_id"))
    ensures "player_id" in columns ==>
      (r.Fail? <==> allPlayerBets != [] && CheckMeasureData(columns, LaBrieRequired(daily)).Fail?)
    ensures "player_id" in columns && r.Fail? ==> r.error == CheckMeasureData(columns, LaBrieRequired(daily)).error
    ensures r.Ok? ==> LaBrieTable(r.value, columns, allPlayerBets, daily)
  {
    if "player_id" !in columns {
      return Fail(KeyError("player_id"));
    }
    var ids := PlayerIds(allPlayerBets);
    assert Seqs.Enumerates(Seqs.Distinct(ids), ids);
    var uniquePlayers :| Seqs.Enumerates(uniquePlayers, ids);
    var lists: seq<seq<Value>> := seq(|LaBrieColumns|, _ => []);
    ghost var built: seq<seq<Value>> := [];
    for i := 0 to |uniquePlayers|
      invariant Seqs.Enumerates(uniquePlayers, ids)
      invariant |built| == i
      invariant forall k :: 0 <= k < i ==> |built[k]| == |LaBrieColumns| && built[k][0] == uniquePlayers[k]
      invariant forall k :: 0 <= k < i ==> LaBrieRowOf(columns, RowsOf(allPlayerBets, uniquePlayers[k]), daily) == Ok(built[k])
      invariant lists == Columns(built, |LaBrieColumns|)
      invariant i > 0 ==> CheckMeasureData(columns, LaBrieRequired(daily)).Ok?
    {
      assert uniquePlayers[i] in uniquePlayers;
      var row :- NextLaBrieRow(columns, allPlayerBets, uniquePlayers[i], daily);
      ExtendRows(built, uniquePlayers, row, |LaBrieColumns|);
      AppendRow(built, row, |LaBrieColumns|);
      lists := AppendEach(lists, row);
      built := built + [row];
    }
    if allPlayerBets != [] {
      assert ids[0] in uniquePlayers;
    }
    var t := FromColumns(LaBrieColumns, lists, |uniquePlayers|);
    LaBrieTableBuilt(columns, allPlayerBets, daily, uniquePlayers, built);
    r := Ok(t);
  }

  /** The table assembled from the rows built one per listed player. */
  lemma LaBrieTableBuilt(columns: seq<string>, bets: seq<Bet>, daily: bool, players: seq<Value>, built: seq<seq<Value>>)
    requires Seqs.Enumerates(players, PlayerIds(bets))
    requires |built| == |players|
    requires forall k :: 0 <= k < |players| ==> |built[k]| == |LaBrieColumns| && built[k][0] == players[k]
    requires forall k :: 0 <= k < |players| ==> LaBrieRowOf(columns, RowsOf(bets, players[k]), daily) == Ok(built[k])
    ensures LaBrieTable(FromColumns(LaBrieColumns, Columns(built, |LaBrieColumns|), |players|), columns, bets, daily)
  {
    var lists := Columns(built, |LaBrieColumns|);
    var t := FromColumns(LaBrieColumns, lists, |players|);
    LaBrieColumnsDistinct();
    TableOfRows(t, LaBrieColumns, players, built, lists);
    forall k | 0 <= k < |t.rows|
      ensures LaBrieRowOf(columns, RowsOf(bets, t.rows[k].cells[0]), daily) == Ok(t.rows[k].cells)
    {
      assert t.rows[k].cells == built[k];
    }
  }

  /** The measures of the next player in the loop. */
  method NextLaBrieRow(columns: seq<string>, allPlayerBets: seq<Bet>, id: Value, daily: bool) returns (r: Result<seq<Value>>)
    requires id in PlayerIds(allPlayerBets)
    ensures r.Fail? <==> CheckMeasureData(columns, LaBrieRequired(daily)).Fail?
    ensures r.Fail? ==> r.error == CheckMeasureData(columns, LaBrieRequired(daily)).error
    ensures r.Ok? ==> LaBrieRowOf(columns, RowsOf(allPlayerBets, id), daily) == r
    ensures r.Ok? ==> |r.value| == |LaBrieColumns| && r.value[0] == id
  {
    var playerBets := RowsOf(allPlayerBets, id);
    PlayerRow(allPlayerBets, id);
    LaBrieRowChecks(columns, playerBets, daily);
    r := PlayerLaBrie(columns, playerBets, daily);
  }

  // ------------------------------------------------------------------ Braverman

  const BravermanColumns: seq<string> := ["player_id", "intensity", "frequency", "variability",
    "trajectory", "sum_of_stakes", "total_num_bets", "average_bet_size", "duration", "net_loss"]

  /** The Braverman row of one player's bets, field by field in the order the
      loop body computes them. `std` and `slope` stand for the sample standard
      deviation and the fitted regression slope of the first-month bet sizes. */
  function BravermanRowOf(columns: seq<string>, rows: seq<Bet>, std: seq<real> -> Value, slope: seq<real> -> Value): (r: Result<seq<Value>>)
    ensures r.Ok? ==> rows != [] && |r.value| == |BravermanColumns| && r.value[0] == rows[0].playerId
  {
    if rows == [] then Fail(IndexError)
    else
      var intensity :- IntensityDaily(columns, rows);
      var frequency := FrequencyDaily(columns, rows).value;
      var variability :- FirstMonthStatistic(columns, rows, std);
      var trajectory := FirstMonthStatistic(columns, rows, slope).value;
      var stakes := Seqs.Sum(Sizes(rows));
      var count := Seqs.Sum(Counts(rows));
      var duration := DurationOf(columns, rows).value;
      var net :- NetLoss(columns, rows);
      Ok([rows[0].playerId, intensity, Num(frequency as real), variability, trajectory,
          Num(stakes), Num(count), Divide(stakes, count), Num(duration as real), Num(net)])
  }

  /** The error a player's Braverman row stops with: the first-month measures
      look bet_time, bet_count and bet_size up directly (a KeyError), and only
      net_loss goes through check_measure_data (for payout_size). */
  function BravermanCheck(columns: seq<string>): (r: Result<()>)
    ensures r.Ok? <==> CheckMeasureData(columns, LaBrieRequired(true)).Ok?
  {
    FirstMissing4(columns, "bet_time", "bet_count", "bet_size", "payout_size");
    if "bet_time" !in columns then Fail(KeyError("bet_time"))
    else if "bet_count" !in columns then Fail(KeyError("bet_count"))
    else if "bet_size" !in columns then Fail(KeyError("bet_size"))
    else if "payout_size" !in columns then Fail(MissingColumn("payout_size"))
    else Ok(())
  }

  /** A player's Braverman row fails exactly as BravermanCheck says. */
  lemma BravermanRowChecks(columns: seq<string>, rows: seq<Bet>, std: seq<real> -> Value, slope: seq<real> -> Value)
    requires rows != []
    ensures BravermanRowOf(columns, rows, std, slope).Fail? <==> BravermanCheck(columns).Fail?
    ensures BravermanRowOf(columns, rows, std, slope).Fail? ==>
      BravermanRowOf(columns, rows, std, slope).error == BravermanCheck(columns).error
  {
    DurationDefined(columns, rows);
  }

  /** The Braverman and daily LaBrie rows of the same bets agree where they
      measure the same thing: sum_of_stakes is total_wagered, total_num_bets is
      num_bets, average_bet_size and duration and net_loss coincide. */
  lemma BravermanAgreesWithDailyLaBrie(columns: seq<string>, rows: seq<Bet>, std: seq<real> -> Value, slope: seq<real> -> Value)
    requires BravermanRowOf(columns, rows, std, slope).Ok?
    ensures LaBrieRowOf(columns, rows, true).Ok?
    ensures var b, l := BravermanRowOf(columns, rows, std, slope).value, LaBrieRowOf(columns, rows, true).value;
      b[5] == l[6] && b[6] == l[3] && b[7] == l[5] && b[8] == l[1] && b[9] == l[7]
  {
    assert LaBrieRowOf(columns, rows, true).Ok? by {
      BravermanRowChecks(columns, rows, std, slope);
      LaBrieRowChecks(columns, rows, true);
      FirstMissing4(columns, "bet_time", "bet_count", "bet_size", "payout_size");
    }
    BravermanShared(columns, rows, std, slope);
    LaBrieDailyShared(columns, rows);
  }

  /** The five Braverman cells that the daily LaBrie row also has. */
  lemma BravermanShared(columns: seq<string>, rows: seq<Bet>, std: seq<real> -> Value, slope: seq<real> -> Value)
    requires BravermanRowOf(columns, rows, std, slope).Ok?
    ensures DurationOf(columns, rows).Ok? && NetLoss(columns, rows).Ok?
    ensures var b, stakes, count := BravermanRowOf(columns, rows, std, slope).value, Seqs.Sum(Sizes(rows)), Seqs.Sum(Counts(rows));
      b[5] == Num(stakes) && b[6] == Num(count) && b[7] == Divide(stakes, count)
      && b[8] == Num(DurationOf(columns, rows).value as real) && b[9] == Num(NetLoss(columns, rows).value)
  {
    var intensity, variability := IntensityDaily(columns, rows), FirstMonthStatistic(columns, rows, std);
    var net := NetLoss(columns, rows);
    assert rows != [] && intensity.Ok? && variability.Ok? && net.Ok?;
    DurationDefined(columns, rows);
    var stakes, count := Seqs.Sum(Sizes(rows)), Seqs.Sum(Counts(rows));
    var duration := DurationOf(columns, rows).value;
    var row := [rows[0].playerId, intensity.value, Num(FrequencyDaily(columns, rows).value as real), variability.value,
      FirstMonthStatistic(columns, rows, slope).value, Num(stakes), Num(count), Divide(stakes, count),
      Num(duration as real), Num(net.value)];
    var b := BravermanRowOf(columns, rows, std, slope).value;
    assert b == row;
    TenCells(rows[0].playerId, intensity.value, Num(FrequencyDaily(columns, rows).value as real), variability.value,
      FirstMonthStatistic(columns, rows, slope).value, Num(stakes), Num(count), Divide(stakes, count),
      Num(duration as real), Num(net.value));
  }

  lemma TenCells(x0: Value, x1: Value, x2: Value, x3: Value, x4: Value, x5: Value, x6: Value, x7: Value, x8: Value, x9: Value)
    ensures var r := [x0, x1, x2, x3, x4, x5, x6, x7, x8, x9];
      r[5] == x5 && r[6] == x6 && r[7] == x7 && r[8] == x8 && r[9] == x9
  {
  }

  /** The same five cells of the daily LaBrie row. */
  lemma LaBrieDailyShared(columns: seq<string>, rows: seq<Bet>)
    requires LaBrieRowOf(columns, rows, true).Ok?
    ensures DurationOf(columns, rows).Ok? && NetLoss(columns, rows).Ok?
    ensures var l, stakes, count := LaBrieRowOf(columns, rows, true).value, Seqs.Sum(Sizes(rows)), Seqs.Sum(Counts(rows));
      l[6] == Num(stakes) && l[3] == Num(count) && l[5] == Divide(stakes, count)
      && l[1] == Num(DurationOf(columns, rows).value as real) && l[7] == Num(NetLoss(columns, rows).value)
  {
    var duration, counts := DurationOf(columns, rows), CountMeasures(columns, rows, true);
    assert rows != [] && duration.Ok? && counts.Ok?;
    var money := MoneyMeasures(columns, rows);
    assert money.Ok?;
    var frequency := FrequencyOf(columns, rows).value;
    var row := [rows[0].playerId, Num(duration.value as real), Num(frequency), Num(counts.value.0), Num(counts.value.1),
      counts.value.2, Num(money.value.0), Num(money.value.1), money.value.2];
    var l := LaBrieRowOf(columns, rows, true).value;
    assert l == row;
    NineCells(rows[0].playerId, Num(duration.value as real), Num(frequency), Num(counts.value.0), Num(counts.value.1),
      counts.value.2, Num(money.value.0), Num(money.value.1), money.value.2);
  }

  lemma NineCells(x0: Value, x1: Value, x2: Value, x3: Value, x4: Value, x5: Value, x6: Value, x7: Value, x8: Value)
    ensures var r := [x0, x1, x2, x3, x4, x5, x6, x7, x8];
      r[1] == x1 && r[3] == x3 && r[5] == x5 && r[6] == x6 && r[7] == x7
  {
  }

  /** The loop body of calculate_braverman_measures for one player. The
      first-month measures and the sums read the player's copy in table order;
      duration then sorts the copy in place before net_loss reads it. */
  method PlayerBraverman(columns: seq<string>, rows: seq<Bet>, std: seq<real> -> Value, slope: seq<real> -> Value)
    returns (r: Result<seq<Value>>)
    requires rows != []
    ensures r == BravermanRowOf(columns, rows, std, slope)
  {
    var playerId := rows[0].playerId;
    var intensity :- IntensityDaily(columns, rows);
    var frequency := FrequencyDaily(columns, rows).value;
    var variability :- FirstMonthStatistic(columns, rows, std);
    var trajectory := FirstMonthStatistic(columns, rows, slope).value;
    var stakes := Seqs.Sum(Sizes(rows));
    var count := Seqs.Sum(Counts(rows));
    var playerBets := new PlayerBets(columns, Positions(|rows|), rows);
    var d := playerBets.Duration();
    assert d.Ok? by {
      DurationDefined(columns, rows);
    }
    var duration := d.value;
    assert NetLoss(playerBets.columns, playerBets.rows) == NetLoss(columns, rows) by {
      AmountsIgnoreOrder(playerBets.columns, playerBets.rows, columns, rows);
    }
    var net :- NetLoss(playerBets.columns, playerBets.rows);
    r := Ok([playerId, intensity, Num(frequency as real), variability, trajectory,
             Num(stakes), Num(count), Divide(stakes, count), Num(duration as real), Num(net)]);
  }

  /** The rows of a Braverman table are the Braverman rows of the players they name. */
  ghost predicate BravermanTable(t: Table, columns: seq<string>, bets: seq<Bet>, std: seq<real> -> Value, slope: seq<real> -> Value) {
    && PlayerTable(t, BravermanColumns, bets)
    && forall k :: 0 <= k < |t.rows| ==> BravermanRowOf(columns, RowsOf(bets, t.rows[k].cells[0]), std, slope) == Ok(t.rows[k].cells)
  }

  /** calculate_braverman_measures: like the LaBrie table, with the errors of
      BravermanCheck. */
  method CalculateBravermanMeasures(columns: seq<string>, allPlayerBets: seq<Bet>, std: seq<real> -> Value, slope: seq<real> -> Value)
    returns (r: Result<Table>)
    ensures "player_id" !in columns ==> r == Fail(KeyError("player_id"))
    ensures "player_id" in columns ==> (r.Fail? <==> allPlayerBets != [] && BravermanCheck(columns).Fail?)
    ensures "player_id" in columns && r.Fail? ==> r.error == BravermanCheck(columns).error
    ensures r.Ok? ==> BravermanTable(r.value, columns, allPlayerBets, std, slope)
  {
    if "player_id" !in columns {
      return Fail(KeyError("player_id"));
    }
    var ids := PlayerIds(allPlayerBets);
    assert Seqs.Enumerates(Seqs.Distinct(ids), ids);
    var uniquePlayers :| Seqs.Enumerates(uniquePlayers, ids);
    var lists: seq<seq<Value>> := seq(|BravermanColumns|, _ => []);
    ghost var built: seq<seq<Value>> := [];
    for i := 0 to |uniquePlayers|
      invariant Seqs.Enumerates(uniquePlayers, ids)
      invariant |built| == i
      invariant forall k :: 0 <= k < i ==> |built[k]| == |BravermanColumns| && built[k][0] == uniquePlayers[k]
      invariant forall k :: 0 <= k < i ==> BravermanRowOf(columns, RowsOf(allPlayerBets, uniquePlayers[k]), std, slope) == Ok(built[k])
      invariant lists == Columns(built, |BravermanColumns|)
      invariant i > 0 ==> BravermanCheck(columns).Ok?
    {
      assert uniquePlayers[i] in uniquePlayers;
      var row :- NextBravermanRow(columns, allPlayerBets, uniquePlayers[i], std, slope);
      ExtendRows(built, uniquePlayers, row, |BravermanColumns|);
      AppendRow(built, row, |BravermanColumns|);
      lists := AppendEach(lists, row);
      built := built + [row];
    }
    if allPlayerBets != [] {
      assert ids[0] in uniquePlayers;
    }
    var t := FromColumns(BravermanColumns, lists, |uniquePlayers|);
    BravermanTableBuilt(columns, allPlayerBets, std, slope, uniquePlayers, built);
    r := Ok(t);
  }

  /** The table assembled from the rows built one per listed player. */
  lemma BravermanTableBuilt(columns: seq<string>, bets: seq<Bet>, std: seq<real> -> Value, slope: seq<real> -> Value, players: seq<Value>, built: seq<seq<Value>>)
    requires Seqs.Enumerates(players, PlayerIds(bets))
    requires |built| == |players|
    requires forall k :: 0 <= k < |players| ==> |built[k]| == |BravermanColumns| && built[k][0] == players[k]
    requires forall k :: 0 <= k < |players| ==> BravermanRowOf(columns, RowsOf(bets, players[k]), std, slope) == Ok(built[k])
    ensures BravermanTable(FromColumns(BravermanColumns, Columns(built, |BravermanColumns|), |players|), columns, bets, std, slope)
  {
    var lists := Columns(built, |BravermanColumns|);
    var t := FromColumns(BravermanColumns, lists, |players|);
    BravermanColumnsDistinct();
    TableOfRows(t, BravermanColumns, players, built, lists);
    forall k | 0 <= k < |t.rows|
      ensures BravermanRowOf(columns, RowsOf(bets, t.rows[k].cells[0]), std, slope) == Ok(t.rows[k].cells)
    {
      assert t.rows[k].cells == built[k];
    }
  }

  /** The Braverman measures of the next player in the loop. */
  method NextBravermanRow(columns: seq<string>, allPlayerBets: seq<Bet>, id: Value, std: seq<real> -> Value, slope: seq<real> -> Value)
    returns (r: Result<seq<Value>>)
    requires id in PlayerIds(allPlayerBets)
    ensures r.Fail? <==> BravermanCheck(columns).Fail?
    ensures r.Fail? ==> r.error == BravermanCheck(columns).error
    ensures r.Ok? ==> BravermanRowOf(columns, RowsOf(allPlayerBets, id), std, slope) == r
    ensures r.Ok? ==> |r.value| == |BravermanColumns| && r.value[0] == id
  {
    var playerBets := RowsOf(allPlayerBets, id);
    PlayerRow(allPlayerBets, id);
    BravermanRowChecks(columns, playerBets, std, slope);
    r := PlayerBraverman(columns, playerBets, std, slope);
  }

  lemma BravermanColumnsDistinct()
    ensures forall i, j :: 0 <= i < j < |BravermanColumns| ==> BravermanColumns[i] != BravermanColumns[j]
  {
  }

  // ------------------------------------------------------------------ assembling a table

  /** The parallel column lists that rows of width `width` make up. */
  function Columns(built: seq<seq<Value>>, width: nat): (lists: seq<seq<Value>>)
    requires forall k :: 0 <= k < |built| ==> |built[k]| == width
    ensures |lists| == width
    ensures forall c :: 0 <= c < width ==> |lists[c]| == |built|
    ensures forall k, c :: 0 <= k < |built| && 0 <= c < width ==> lists[c][k] == built[k][c]
  {
    seq(width, c requires 0 <= c < width => seq(|built|, k requires 0 <= k < |built| => built[k][c]))
  }

  /** One more row whose first cell names the next player keeps every row
      of the table's width and naming its player. */
  lemma ExtendRows(built: seq<seq<Value>>, players: seq<Value>, row: seq<Value>, width: nat)
    requires |built| < |players| && width > 0
    requires forall k :: 0 <= k < |built| ==> |built[k]| == width && built[k][0] == players[k]
    requires |row| == width && row[0] == players[|built|]
    ensures forall k :: 0 <= k < |built| + 1 ==> |(built + [row])[k]| == width && (built + [row])[k][0] == players[k]
  {
  }

  /** Appending a row's values to the column lists is appending the row. */
  lemma AppendRow(built: seq<seq<Value>>, row: seq<Value>, width: nat)
    requires forall k :: 0 <= k < |built| ==> |built[k]| == width
    requires |row| == width
    ensures AppendEach(Columns(built, width), row) == Columns(built + [row], width)
  {
    var a, b := AppendEach(Columns(built, width), row), Columns(built + [row], width);
    forall c | 0 <= c < width
      ensures a[c] == b[c]
    {
      assert |a[c]| == |b[c]|;
    }
  }

  lemma LaBrieColumnsDistinct()
    ensures forall i, j :: 0 <= i < j < |LaBrieColumns| ==> LaBrieColumns[i] != LaBrieColumns[j]
  {
  }

  /** Assembling the parallel column lists gives a table whose k-th row is the
      k-th row of measures built. */
  lemma TableOfRows(t: Table, names: seq<string>, players: seq<Value>, built: seq<seq<Value>>, lists: seq<seq<Value>>)
    requires |names| > 0 && names[0] == "player_id"
    requires forall i, j :: 0 <= i < j < |names| ==> names[i] != names[j]
    requires |lists| == |names| && forall c :: 0 <= c < |lists| ==> |lists[c]| == |players|
    requires |built| == |players|
    requires forall k :: 0 <= k < |players| ==> |built[k]| == |names| && built[k][0] == players[k]
    requires forall k, c :: 0 <= k < |players| && 0 <= c < |lists| ==> lists[c][k] == built[k][c]
    requires t == FromColumns(names, lists, |players|)
    ensures Valid(t) && t.names == names && Labels(t) == RangeIndex(|t.rows|)
    ensures Column(t, "player_id") == players
    ensures |t.rows| == |players| && forall k :: 0 <= k < |players| ==> t.rows[k].cells == built[k]
  {
    forall k | 0 <= k < |players|
      ensures t.rows[k].cells == built[k]
    {
      assert |t.rows[k].cells| == |built[k]|;
    }
    PlayerColumnIs(t, players);
  }

  /** The first LaBrie/Braverman cell of a listed player is the player's id. */
  lemma PlayerRow(bets: seq<Bet>, id: Value)
    requires id in PlayerIds(bets)
    ensures RowsOf(bets, id) != [] && RowsOf(bets, id)[0].playerId == id
  {
    RowsOfPlayer(bets, id);
  }

  lemma PlayerColumnIs(t: Table, players: seq<Value>)
    requires |t.names| > 0 && t.names[0] == "player_id"
    requires forall i, j :: 0 <= i < j < |t.names| ==> t.names[i] != t.names[j]
    requires forall k :: 0 <= k < |t.rows| ==> |t.rows[k].cells| == |t.names|
    requires |t.rows| == |players|
    requires forall k :: 0 <= k < |players| ==> t.rows[k].cells[0] == players[k]
    ensures Valid(t) && Column(t, "player_id") == players
  {
    assert IndexOf(t.names, "player_id") == 0;
  }
}
