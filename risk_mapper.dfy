/**
 * The risk mapper: couples each flooded reach's severity class with a social
 * vulnerability (SVI) score, ranks the coupled values into four risk levels
 * by their quartiles, and summarises how many reaches fall in each level.
 */
module RiskMapper {
  import opened Wrappers
  import opened Quantiles
  import opened FimGenerator

  /** One row of the risk frame. `riskName` is None while the risk_name column is absent. */
  datatype RiskRow = RiskRow(
    featureId: string, depth: real, depthSeverity: string,
    coupledRiskValue: int, riskLevel: int, riskName: Option<string>)

  /** The errors the mapper raises: a missing frame column (KeyError) and a division by zero. */
  datatype MapperError = MissingColumn(column: string) | ZeroDivision

  /** Counts and percentages of the rows in each risk level. */
  datatype RiskStatistics = RiskStatistics(
    totalLocations: nat,
    lowRiskCount: nat, moderateRiskCount: nat, highRiskCount: nat, veryHighRiskCount: nat,
    lowRiskPct: real, moderateRiskPct: real, highRiskPct: real, veryHighRiskPct: real)

  /** The risk level names. */
  const RiskLevels: map<int, string> :=
    map[1 := "Low Risk", 2 := "Moderate Risk", 3 := "High Risk", 4 := "Very High Risk"]

  // ---------------------------------------------------------------------------
  // Selecting the flooded reaches

  /** The reaches with a severity class above 0, in input order (the boolean mask). */
  function Flooded(depthData: seq<ClassifiedReach>): (r: seq<ClassifiedReach>)
    ensures |r| <= |depthData|
    ensures forall i :: 0 <= i < |r| ==> r[i].severityClass > 0
  {
    if depthData == [] then []
    else
      var last := depthData[|depthData| - 1];
      Flooded(depthData[..|depthData| - 1]) + (if last.severityClass > 0 then [last] else [])
  }

  /** A reach is selected exactly when it is in the input with a class above 0. */
  lemma {:induction false} FloodedMembers(depthData: seq<ClassifiedReach>, x: ClassifiedReach)
    ensures x in Flooded(depthData) <==> x in depthData && x.severityClass > 0
  {
    if depthData != [] {
      var init, last := depthData[..|depthData| - 1], depthData[|depthData| - 1];
      FloodedMembers(init, x);
      assert depthData == init + [last];
    }
  }

  /**
   * Reaches classified by the depth table give the combiner only severity
   * classes 1..4.
   */
  lemma {:induction false} FloodedSeverities(depthData: seq<ClassifiedReach>)
    requires forall i :: 0 <= i < |depthData| ==> depthData[i].severityClass == SeverityClassOf(depthData[i].depth)
    ensures forall i :: 0 <= i < |Flooded(depthData)| ==> 1 <= Flooded(depthData)[i].severityClass <= 4
  {
    if depthData != [] {
      FloodedSeverities(depthData[..|depthData| - 1]);
    }
  }

  /** The mask keeps input order: selecting from a concatenation concatenates the selections. */
  lemma {:induction false} FloodedKeepsOrder(a: seq<ClassifiedReach>, b: seq<ClassifiedReach>)
    ensures Flooded(a + b) == Flooded(a) + Flooded(b)
  {
    if b == [] {
      assert a + b == a;
    } else {
      var init, last := b[..|b| - 1], b[|b| - 1];
      var tail := if last.severityClass > 0 then [last] else [];
      var ab := a + b;
      assert ab[..|ab| - 1] == a + init && ab[|ab| - 1] == last;
      calc {
        Flooded(ab);
        Flooded(a + init) + tail;
        { FloodedKeepsOrder(a, init); }
        Flooded(a) + Flooded(init) + tail;
        Flooded(a) + Flooded(b);
      }
    }
  }

  /** The row built for a flooded reach and its chosen score, before levelling. */
  function UnlevelledRow(reach: ClassifiedReach, score: int): RiskRow
  {
    RiskRow(reach.featureId, reach.depth, reach.severityName, reach.severityClass * score, 0, None)
  }

  /** Every row of the combined frame comes from the flooded reach and chosen score at its index. */
  predicate CoupledFrom(flooded: seq<ClassifiedReach>, chosen: seq<int>, rows: seq<RiskRow>)
    requires |chosen| == |flooded|
  {
    && |rows| == |flooded|
    && forall i :: 0 <= i < |rows| ==>
      && rows[i].featureId == flooded[i].featureId
      && rows[i].depth == flooded[i].depth
      && rows[i].depthSeverity == flooded[i].severityName
      && rows[i].coupledRiskValue == flooded[i].severityClass * chosen[i]
  }

  // ---------------------------------------------------------------------------
  // Binning a value by the quartile cut points

  /** The cut points are non-decreasing (the monotone bins np.digitize needs). */
  predicate Ascending(bins: seq<real>)
  {
    forall j, k :: 0 <= j <= k < |bins| ==> bins[j] <= bins[k]
  }

  /**
   * np.digitize(x, bins, right=True) for ascending bins: the index of the first
   * bin at or above x, i.e. every bin before it is below x and every bin from
   * it on is at or above x.
   */
  function Digitize(bins: seq<real>, x: real): (i: nat)
    requires Ascending(bins)
    ensures i <= |bins|
    ensures forall j :: 0 <= j < i ==> bins[j] < x
    ensures forall j :: i <= j < |bins| ==> x <= bins[j]
  {
    if bins == [] || x <= bins[0] then 0 else 1 + Digitize(bins[1..], x)
  }

  /** np.clip of an integer into [lo, hi]. */
  function Clip(v: int, lo: int, hi: int): (c: int)
    requires lo <= hi
    ensures lo <= c <= hi
    ensures lo <= v <= hi ==> c == v
    ensures v < lo ==> c == lo
    ensures v > hi ==> c == hi
  {
    if v < lo then lo else if v > hi then hi else v
  }

  /**
   * The risk level of a coupled value: digitize against Q1, Q2, Q3 with the
   * right edge inclusive, add one, clip to [1, 4].
   */
  function RiskLevel(cuts: seq<real>, v: int): (level: int)
    requires |cuts| == 3 && Ascending(cuts)
    ensures 1 <= level <= 4
    ensures level == 1 <==> v as real <= cuts[0]
    ensures level == 2 <==> cuts[0] < v as real <= cuts[1]
    ensures level == 3 <==> cuts[1] < v as real <= cuts[2]
    ensures level == 4 <==> cuts[2] < v as real
  {
    Clip(Digitize(cuts, v as real) + 1, 1, 4)
  }

  /** A larger coupled value never gets a lower risk level. */
  lemma RiskLevelMonotone(cuts: seq<real>, v1: int, v2: int)
    requires |cuts| == 3 && Ascending(cuts)
    requires v1 <= v2
    ensures RiskLevel(cuts, v1) <= RiskLevel(cuts, v2)
  {
  }

  /** The quartile cut points np.quantile returns. */
  function QuartileCuts(valid: seq<int>): (cuts: seq<real>)
    requires |valid| > 0
    ensures |cuts| == 3 && Ascending(cuts)
    ensures forall k :: 0 <= k < 3 ==> AtLeastMin(valid, cuts[k]) && AtMostMax(valid, cuts[k])
  {
    var q := Quartiles(valid);
    assert forall j, k :: 0 <= j <= k < 3 ==> q[j] <= q[k];
    q
  }

  /** The coupled_risk_value column. */
  function CoupledValues(rows: seq<RiskRow>): (vals: seq<int>)
    ensures |vals| == |rows|
    ensures forall i :: 0 <= i < |rows| ==> vals[i] == rows[i].coupledRiskValue
  {
    seq(|rows|, i requires 0 <= i < |rows| => rows[i].coupledRiskValue)
  }

  /** The values above 0, in order (the `> 0` mask before np.quantile). */
  function Positive(vals: seq<int>): (r: seq<int>)
    ensures |r| <= |vals|
    ensures forall x :: x in r <==> x in vals && x > 0
  {
    if vals == [] then []
    else
      var init, last := vals[..|vals| - 1], vals[|vals| - 1];
      assert vals == init + [last];
      Positive(init) + (if last > 0 then [last] else [])
  }

  /** The mask keeps every positive value as many times as it occurs, and no other value. */
  lemma {:induction false} PositiveKeepsRepeats(vals: seq<int>)
    ensures forall x :: multiset(Positive(vals))[x] == if x > 0 then multiset(vals)[x] else 0
  {
    if vals != [] {
      var init, last := vals[..|vals| - 1], vals[|vals| - 1];
      PositiveKeepsRepeats(init);
      assert vals == init + [last];
      assert multiset(vals) == multiset(init) + multiset{last};
    }
  }

  /** The `> 0` mask keeps order: filtering a concatenation concatenates the filtered parts. */
  lemma {:induction false} PositiveKeepsOrder(a: seq<int>, b: seq<int>)
    ensures Positive(a + b) == Positive(a) + Positive(b)
  {
    if b == [] {
      assert a + b == a;
    } else {
      var init, last := b[..|b| - 1], b[|b| - 1];
      var tail := if last > 0 then [last] else [];
      var ab := a + b;
      assert ab[..|ab| - 1] == a + init && ab[|ab| - 1] == last;
      calc {
        Positive(ab);
        Positive(a + init) + tail;
        { PositiveKeepsOrder(a, init); }
        Positive(a) + Positive(init) + tail;
        Positive(a) + Positive(b);
      }
    }
  }

  /** A column holding only the positive value c keeps every entry, each equal to c. */
  lemma {:induction false} PositiveOfTies(vals: seq<int>, c: int)
    requires c > 0
    requires forall i :: 0 <= i < |vals| ==> vals[i] == c
    ensures |Positive(vals)| == |vals|
    ensures forall i :: 0 <= i < |Positive(vals)| ==> Positive(vals)[i] == c
  {
    if vals != [] {
      PositiveOfTies(vals[..|vals| - 1], c);
    }
  }

  /** A column with no value above 0 has nothing to rank. */
  lemma {:induction false} NoPositiveValues(vals: seq<int>)
    requires forall i :: 0 <= i < |vals| ==> vals[i] <= 0
    ensures Positive(vals) == []
  {
    if vals != [] {
      NoPositiveValues(vals[..|vals| - 1]);
    }
  }

  /** A row with its risk level and risk name assigned from the cut points. */
  function Levelled(row: RiskRow, cuts: seq<real>): (r: RiskRow)
    requires |cuts| == 3 && Ascending(cuts)
  {
    var level := RiskLevel(cuts, row.coupledRiskValue);
    row.(riskLevel := level, riskName := Some(RiskLevels[level]))
  }

  /**
   * The frame after levelling: if some coupled value is positive, every row
   * has the level of its value against the quartiles of the positive values
   * and the name of that level; otherwise no row has a level or a name.
   */
  predicate LevelledByQuartiles(rows: seq<RiskRow>)
  {
    var valid := Positive(CoupledValues(rows));
    if |valid| > 0 then
      forall i :: 0 <= i < |rows| ==>
        && rows[i].riskLevel == RiskLevel(QuartileCuts(valid), rows[i].coupledRiskValue)
        && rows[i].riskName == Some(RiskLevels[rows[i].riskLevel])
    else
      forall i :: 0 <= i < |rows| ==> rows[i].riskLevel == 0 && rows[i].riskName == None
  }

  // ---------------------------------------------------------------------------
  // _classify_risk_levels and _combine_depth_and_svi

  /**
   * Assigns the risk_level and risk_name columns of the frame in place. When no
   * coupled value is positive the frame is left as it was.
   */
  method ClassifyRiskLevels(riskDf: array<RiskRow>)
    modifies riskDf
    ensures var valid := Positive(CoupledValues(old(riskDf[..])));
      if |valid| > 0 then
        forall i :: 0 <= i < riskDf.Length ==> riskDf[i] == Levelled(old(riskDf[i]), QuartileCuts(valid))
      else riskDf[..] == old(riskDf[..])
  {
    var validValues := Positive(CoupledValues(riskDf[..]));
    if |validValues| > 0 {
      var quantiles := QuartileCuts(validValues);
      for i := 0 to riskDf.Length
        invariant forall j :: 0 <= j < i ==> riskDf[j] == Levelled(old(riskDf[j]), quantiles)
        invariant forall j :: i <= j < riskDf.Length ==> riskDf[j] == old(riskDf[j])
      {
        var level := RiskLevel(quantiles, riskDf[i].coupledRiskValue);
        riskDf[i] := riskDf[i].(riskLevel := level, riskName := Some(RiskLevels[level]));
      }
    }
  }

  /**
   * Levelling the unlevelled rows built from the flooded reaches (as
   * _classify_risk_levels does) keeps the columns those rows came with and
   * leaves the frame levelled by its quartiles.
   */
  lemma LevellingKeepsColumns(
    flooded: seq<ClassifiedReach>, chosen: seq<int>, before: seq<RiskRow>, after: seq<RiskRow>)
    requires |chosen| == |flooded| && |before| == |flooded| && |after| == |before|
    requires forall i :: 0 <= i < |before| ==> before[i] == UnlevelledRow(flooded[i], chosen[i])
    requires var valid := Positive(CoupledValues(before));
      if |valid| > 0 then
        forall i :: 0 <= i < |after| ==> after[i] == Levelled(before[i], QuartileCuts(valid))
      else after == before
    ensures CoupledFrom(flooded, chosen, after)
    ensures LevelledByQuartiles(after)
  {
    assert CoupledValues(after) == CoupledValues(before);
  }

  /**
   * Builds one risk row per flooded reach, in input order, whose coupled value
   * is the reach's severity class times the SVI score chosen for it, then
   * levels the frame. `chosen` stands for the scores np.random.choice draws:
   * one per flooded reach, each a value of the SVI score column. With no
   * flooded reach the frame has no coupled_risk_value column and levelling
   * raises a KeyError.
   */
  method CombineDepthAndSvi(depthData: seq<ClassifiedReach>, sviScores: seq<int>, chosen: seq<int>)
    returns (result: Result<seq<RiskRow>, MapperError>)
    requires |chosen| == |Flooded(depthData)|
    requires forall i :: 0 <= i < |chosen| ==> chosen[i] in sviScores
    ensures result.Failure? <==> Flooded(depthData) == []
    ensures result.Failure? ==> result.error == MissingColumn("coupled_risk_value")
    ensures result.Success? ==> CoupledFrom(Flooded(depthData), chosen, result.value)
    ensures result.Success? ==> LevelledByQuartiles(result.value)
  {
    var floodedReaches := Flooded(depthData);
    var riskData: seq<RiskRow> := [];
    for idx := 0 to |floodedReaches|
      invariant |riskData| == idx
      invariant forall j :: 0 <= j < idx ==> riskData[j] == UnlevelledRow(floodedReaches[j], chosen[j])
    {
      var reach := floodedReaches[idx];
      var coupledValue := reach.severityClass * chosen[idx];
      riskData := riskData + [RiskRow(reach.featureId, reach.depth, reach.severityName, coupledValue, 0, None)];
    }
    if |riskData| == 0 {
      return Failure(MissingColumn("coupled_risk_value"));
    }
    var riskDf := new RiskRow[|riskData|](i requires 0 <= i < |riskData| => riskData[i]);
    assert riskDf[..] == riskData;
    ClassifyRiskLevels(riskDf);
    LevellingKeepsColumns(floodedReaches, chosen, riskData, riskDf[..]);
    result := Success(riskDf[..]);
  }

  // ---------------------------------------------------------------------------
  // Properties of the combined and levelled frame

  /**
   * With severity classes 1..4 and SVI scores 1..16 every coupled value lies
   * in [1, 64].
   */
  lemma CoupledValuesInRange(flooded: seq<ClassifiedReach>, chosen: seq<int>, rows: seq<RiskRow>)
    requires |chosen| == |flooded| && CoupledFrom(flooded, chosen, rows)
    requires forall i :: 0 <= i < |flooded| ==> 1 <= flooded[i].severityClass <= 4
    requires forall i :: 0 <= i < |chosen| ==> 1 <= chosen[i] <= 16
    ensures forall i :: 0 <= i < |rows| ==> 1 <= rows[i].coupledRiskValue <= 64
  {
    forall i | 0 <= i < |rows| ensures 1 <= rows[i].coupledRiskValue <= 64 {
      var c, s := flooded[i].severityClass, chosen[i];
      assert c * s <= 4 * s <= 64;
      assert 1 <= s <= c * s;
    }
  }

  /** Within one levelled frame a larger coupled value never gets a lower level. */
  lemma LevelMonotoneAcrossRows(rows: seq<RiskRow>, i: nat, j: nat)
    requires LevelledByQuartiles(rows)
    requires i < |rows| && j < |rows|
    requires rows[i].coupledRiskValue <= rows[j].coupledRiskValue
    ensures rows[i].riskLevel <= rows[j].riskLevel
  {
    var valid := Positive(CoupledValues(rows));
    if |valid| > 0 {
      RiskLevelMonotone(QuartileCuts(valid), rows[i].coupledRiskValue, rows[j].coupledRiskValue);
    }
  }

  /** When some coupled value is positive, every row is ranked 1..4 and named after its level. */
  lemma AllRowsRanked(rows: seq<RiskRow>, k: nat)
    requires LevelledByQuartiles(rows)
    requires k < |rows| && rows[k].coupledRiskValue > 0
    ensures forall i :: 0 <= i < |rows| ==>
      1 <= rows[i].riskLevel <= 4 && rows[i].riskName == Some(RiskLevels[rows[i].riskLevel])
  {
    var vals := CoupledValues(rows);
    assert vals[k] in vals;
    assert vals[k] in Positive(vals);
  }

  /**
   * The degenerate case: when every coupled value is the same positive c, the
   * three cut points collapse onto c and every row gets level 1 ("Low Risk");
   * when the common value is not positive, levelling is skipped.
   */
  lemma AllTiesSameLevel(rows: seq<RiskRow>, c: int)
    requires LevelledByQuartiles(rows) && |rows| > 0
    requires forall i :: 0 <= i < |rows| ==> rows[i].coupledRiskValue == c
    ensures c > 0 ==> forall i :: 0 <= i < |rows| ==> rows[i].riskLevel == 1 && rows[i].riskName == Some("Low Risk")
    ensures c <= 0 ==> forall i :: 0 <= i < |rows| ==> rows[i].riskLevel == 0 && rows[i].riskName == None
  {
    var vals := CoupledValues(rows);
    var valid := Positive(vals);
    if c > 0 {
      PositiveOfTies(vals, c);
      assert |valid| > 0;
      var cuts := QuartileCuts(valid);
      assert cuts == [c as real, c as real, c as real] by {
        AllTiesQuartiles(valid, c);
      }
      assert RiskLevel(cuts, c) == 1;
      forall i | 0 <= i < |rows|
        ensures rows[i].riskLevel == 1 && rows[i].riskName == Some("Low Risk")
      {
        assert rows[i].riskLevel == RiskLevel(cuts, rows[i].coupledRiskValue);
      }
    } else {
      NoPositiveValues(vals);
    }
  }

  /** Ten values 1..10: Q1 = 3.25, Q2 = 5.5, Q3 = 7.75, so 3, 4, 7, 10 get levels 1, 2, 3, 4. */
  lemma OneToTenLevels(values: seq<int>)
    requires |values| == 10 && forall i :: 0 <= i < 10 ==> values[i] == i + 1
    ensures QuartileCuts(values) == [3.25, 5.5, 7.75]
    ensures RiskLevel(QuartileCuts(values), 3) == 1
    ensures RiskLevel(QuartileCuts(values), 4) == 2
    ensures RiskLevel(QuartileCuts(values), 7) == 3
    ensures RiskLevel(QuartileCuts(values), 10) == 4
  {
    QuartilesOneToTen(values);
  }

  // ---------------------------------------------------------------------------
  // calculate_statistics

  /** The number of rows whose risk level equals `level`. */
  function CountLevel(rows: seq<RiskRow>, level: int): (n: nat)
    ensures n <= |rows|
  {
    if rows == [] then 0
    else CountLevel(rows[..|rows| - 1], level) + (if rows[|rows| - 1].riskLevel == level then 1 else 0)
  }

  /** The rows at a level, by index. */
  function RowsAtLevel(rows: seq<RiskRow>, level: int): set<nat>
  {
    set i: nat | i < |rows| && rows[i].riskLevel == level
  }

  /** The count is the number of row indices at that level. */
  lemma {:induction false} CountLevelIsCardinality(rows: seq<RiskRow>, level: int)
    ensures CountLevel(rows, level) == |RowsAtLevel(rows, level)|
  {
    if rows != [] {
      var n := |rows| - 1;
      var init := rows[..n];
      CountLevelIsCardinality(init, level);
      if rows[n].riskLevel == level {
        assert RowsAtLevel(rows, level) == RowsAtLevel(init, level) + {n};
      } else {
        assert RowsAtLevel(rows, level) == RowsAtLevel(init, level);
      }
    }
  }

  /** Rows whose levels are all 1..4 split exactly into the four counts. */
  lemma {:induction false} CountsPartition(rows: seq<RiskRow>)
    requires forall i :: 0 <= i < |rows| ==> 1 <= rows[i].riskLevel <= 4
    ensures CountLevel(rows, 1) + CountLevel(rows, 2) + CountLevel(rows, 3) + CountLevel(rows, 4) == |rows|
  {
    if rows != [] {
      CountsPartition(rows[..|rows| - 1]);
    }
  }

  /** count / total * 100 over exact reals. */
  function Percentage(count: nat, total: nat): (pct: real)
    requires total > 0
    ensures pct * total as real == count as real * 100.0
    ensures count <= total ==> 0.0 <= pct <= 100.0
  {
    (count as real / total as real) * 100.0
  }

  /** Four percentages of one total whose counts add up to it add up to 100. */
  lemma PercentagesSum(a: nat, b: nat, c: nat, d: nat, total: nat)
    requires total > 0 && a + b + c + d == total
    ensures Percentage(a, total) + Percentage(b, total) + Percentage(c, total) + Percentage(d, total) == 100.0
  {
    var t := total as real;
    var pa, pb, pc, pd := Percentage(a, total), Percentage(b, total), Percentage(c, total), Percentage(d, total);
    calc {
      (pa + pb + pc + pd) * t;
      pa * t + pb * t + pc * t + pd * t;
      a as real * 100.0 + b as real * 100.0 + c as real * 100.0 + d as real * 100.0;
      (a + b + c + d) as real * 100.0;
      100.0 * t;
    }
    assert (pa + pb + pc + pd - 100.0) * t == 0.0;
  }

  /**
   * Counts the rows of each level and turns the counts into percentages of the
   * total. An empty frame divides by zero.
   */
  function CalculateStatistics(riskDf: seq<RiskRow>): (r: Result<RiskStatistics, MapperError>)
    ensures r.Failure? <==> riskDf == []
    ensures r.Failure? ==> r.error == ZeroDivision
    ensures r.Success? ==>
      && r.value.totalLocations == |riskDf|
      && r.value.lowRiskCount == |RowsAtLevel(riskDf, 1)|
      && r.value.moderateRiskCount == |RowsAtLevel(riskDf, 2)|
      && r.value.highRiskCount == |RowsAtLevel(riskDf, 3)|
      && r.value.veryHighRiskCount == |RowsAtLevel(riskDf, 4)|
    ensures r.Success? ==>
      && 0.0 <= r.value.lowRiskPct <= 100.0 && 0.0 <= r.value.moderateRiskPct <= 100.0
      && 0.0 <= r.value.highRiskPct <= 100.0 && 0.0 <= r.value.veryHighRiskPct <= 100.0
    ensures r.Success? ==>
      && r.value.lowRiskPct == Percentage(r.value.lowRiskCount, r.value.totalLocations)
      && r.value.moderateRiskPct == Percentage(r.value.moderateRiskCount, r.value.totalLocations)
      && r.value.highRiskPct == Percentage(r.value.highRiskCount, r.value.totalLocations)
      && r.value.veryHighRiskPct == Percentage(r.value.veryHighRiskCount, r.value.totalLocations)
  {
    var total := |riskDf|;
    if total == 0 then Failure(ZeroDivision)
    else
      var low, moderate, high, veryHigh :=
        CountLevel(riskDf, 1), CountLevel(riskDf, 2), CountLevel(riskDf, 3), CountLevel(riskDf, 4);
      CountLevelIsCardinality(riskDf, 1);
      CountLevelIsCardinality(riskDf, 2);
      CountLevelIsCardinality(riskDf, 3);
      CountLevelIsCardinality(riskDf, 4);
      Success(RiskStatistics(
        total, low, moderate, high, veryHigh,
        Percentage(low, total), Percentage(moderate, total),
        Percentage(high, total), Percentage(veryHigh, total)))
  }

  /**
   * On a non-empty frame whose rows are all ranked 1..4, the four counts add up
   * to the total and the four percentages to 100.
   */
  lemma StatisticsPartition(riskDf: seq<RiskRow>)
    requires |riskDf| > 0
    requires forall i :: 0 <= i < |riskDf| ==> 1 <= riskDf[i].riskLevel <= 4
    ensures CalculateStatistics(riskDf).Success?
    ensures var s := CalculateStatistics(riskDf).value;
      && s.lowRiskCount + s.moderateRiskCount + s.highRiskCount + s.veryHighRiskCount == s.totalLocations
      && s.lowRiskPct + s.moderateRiskPct + s.highRiskPct + s.veryHighRiskPct == 100.0
  {
    CountsPartition(riskDf);
    PercentagesSum(CountLevel(riskDf, 1), CountLevel(riskDf, 2), CountLevel(riskDf, 3), CountLevel(riskDf, 4), |riskDf|);
  }

  /**
   * End to end: a frame the mapper combined and levelled from flooded reaches
   * (classes 1..4) and SVI scores 1..16 has every row ranked, so its statistics
   * partition the total and its percentages add up to 100.
   */
  lemma CombinedStatistics(flooded: seq<ClassifiedReach>, chosen: seq<int>, rows: seq<RiskRow>)
    requires |chosen| == |flooded| && |flooded| > 0
    requires CoupledFrom(flooded, chosen, rows) && LevelledByQuartiles(rows)
    requires forall i :: 0 <= i < |flooded| ==> 1 <= flooded[i].severityClass <= 4
    requires forall i :: 0 <= i < |chosen| ==> 1 <= chosen[i] <= 16
    ensures forall i :: 0 <= i < |rows| ==> 1 <= rows[i].riskLevel <= 4
    ensures CalculateStatistics(rows).Success?
    ensures var s := CalculateStatistics(rows).value;
      && s.lowRiskCount + s.moderateRiskCount + s.highRiskCount + s.veryHighRiskCount == |rows|
      && s.lowRiskPct + s.moderateRiskPct + s.highRiskPct + s.veryHighRiskPct == 100.0
  {
    CoupledValuesInRange(flooded, chosen, rows);
    AllRowsRanked(rows, 0);
    StatisticsPartition(rows);
  }
}
