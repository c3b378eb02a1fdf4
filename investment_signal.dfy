/** The rule-based trade signal of investment_signal.py: four comparison
    rules over six indicator values each add to an integer score and give
    one reason (the band rule only sometimes), and the score is mapped to
    "Buy", "Hold" or "Sell" with thresholds at plus and minus two. The
    indicator values are modelled as reals; they are only ever compared. */
module InvestmentSignal {
  import Text

  datatype Option<T> = None | Some(value: T)

  /** The six inputs of the decision, in the order the source takes them. */
  datatype Indicators = Indicators(
    ma: real, close: real, rsi: real, macd: real, lowerBand: real, upperBand: real)

  /** What one rule contributes: points added to the score and one reason. */
  datatype Finding = Finding(points: int, reason: string)

  datatype Signal = Buy | Hold | Sell

  const RsiOversold := "RSI indicates oversold (<30)"
  const RsiOverbought := "RSI indicates overbought (>70)"
  const RsiNeutral := "RSI is neutral (30–70)"
  const MacdBullish := "MACD shows bullish momentum (>0)"
  const MacdBearish := "MACD shows bearish momentum (<0)"
  const AboveMa := "Price above MA (uptrend)"
  const BelowMa := "Price below MA (downtrend)"
  const BelowLowerBand := "Price below lower Bollinger Band (potential rebound)"
  const AboveUpperBand := "Price above upper Bollinger Band (potential pullback)"

  /** The RSI rule: oversold below 30 is worth +2, overbought above 70 is
      worth -2, and everything from 30 to 70 inclusive is neutral. */
  function RsiFinding(rsi: real): (f: Finding)
    ensures f.points in {-2, 0, 2}
    ensures f.points == 2 <==> rsi < 30.0
    ensures f.points == -2 <==> rsi > 70.0
    ensures f.reason == (if f.points > 0 then RsiOversold
                         else if f.points < 0 then RsiOverbought else RsiNeutral)
  {
    if rsi < 30.0 then Finding(2, RsiOversold)
    else if rsi > 70.0 then Finding(-2, RsiOverbought)
    else Finding(0, RsiNeutral)
  }

  /** The MACD rule: strictly positive MACD is bullish (+1), anything else,
      zero included, is bearish (-1). */
  function MacdFinding(macd: real): (f: Finding)
    ensures f.points in {-1, 1}
    ensures f.points == 1 <==> macd > 0.0
    ensures f.reason == (if f.points > 0 then MacdBullish else MacdBearish)
  {
    if macd > 0.0 then Finding(1, MacdBullish) else Finding(-1, MacdBearish)
  }

  /** The trend rule: a close strictly above the moving average is an
      uptrend (+1), anything else, equality included, a downtrend (-1). */
  function TrendFinding(close: real, ma: real): (f: Finding)
    ensures f.points in {-1, 1}
    ensures f.points == 1 <==> close > ma
    ensures f.reason == (if f.points > 0 then AboveMa else BelowMa)
  {
    if close > ma then Finding(1, AboveMa) else Finding(-1, BelowMa)
  }

  /** The Bollinger rule: a close below the lower band suggests a rebound
      (+1) and then the upper band is not looked at; otherwise a close above
      the upper band suggests a pullback (-1); otherwise the rule is silent. */
  function BandFinding(close: real, lowerBand: real, upperBand: real): (f: Option<Finding>)
    ensures f.Some? <==> close < lowerBand || close > upperBand
    ensures f.Some? ==> f.value.points in {-1, 1}
    ensures f.Some? ==> (f.value.points == 1 <==> close < lowerBand)
    ensures f.Some? ==> f.value.reason == (if f.value.points > 0 then BelowLowerBand else AboveUpperBand)
  {
    if close < lowerBand then Some(Finding(1, BelowLowerBand))
    else if close > upperBand then Some(Finding(-1, AboveUpperBand))
    else None
  }

  /** The findings of the four rules, in the order the rules run. */
  function Findings(x: Indicators): (fs: seq<Finding>)
    ensures 3 <= |fs| <= 4
    ensures fs[0] == RsiFinding(x.rsi)
    ensures fs[1] == MacdFinding(x.macd)
    ensures fs[2] == TrendFinding(x.close, x.ma)
    ensures |fs| == 4 <==> BandFinding(x.close, x.lowerBand, x.upperBand).Some?
    ensures |fs| == 4 ==> fs[3] == BandFinding(x.close, x.lowerBand, x.upperBand).value
  {
    var base := [RsiFinding(x.rsi), MacdFinding(x.macd), TrendFinding(x.close, x.ma)];
    match BandFinding(x.close, x.lowerBand, x.upperBand)
    case Some(f) => base + [f]
    case None => base
  }

  /** The sum of the points of `fs`. */
  function TotalPoints(fs: seq<Finding>): int {
    if fs == [] then 0 else fs[0].points + TotalPoints(fs[1..])
  }

  /** The reasons of `fs`, in order. */
  function ReasonsOf(fs: seq<Finding>): (rs: seq<string>)
    ensures |rs| == |fs|
    ensures forall i :: 0 <= i < |fs| ==> rs[i] == fs[i].reason
  {
    if fs == [] then [] else [fs[0].reason] + ReasonsOf(fs[1..])
  }

  /** The final score: the RSI rule's points plus those of the other three,
      so it lies between -5 and 5. */
  function Score(x: Indicators): (s: int)
    ensures -5 <= s <= 5
    ensures s == RsiFinding(x.rsi).points + MacdFinding(x.macd).points
                 + TrendFinding(x.close, x.ma).points
                 + BandPoints(BandFinding(x.close, x.lowerBand, x.upperBand))
  {
    var fs := Findings(x);
    assert TotalPoints(fs) == fs[0].points + TotalPoints(fs[1..]);
    assert TotalPoints(fs[1..]) == fs[1].points + TotalPoints(fs[2..]);
    assert TotalPoints(fs[2..]) == fs[2].points + TotalPoints(fs[3..]);
    assert TotalPoints(fs[3..]) == BandPoints(BandFinding(x.close, x.lowerBand, x.upperBand)) by {
      if |fs| == 4 {
        assert fs[3..] == [fs[3]];
        assert TotalPoints([fs[3]]) == fs[3].points + TotalPoints([]);
      } else {
        assert fs[3..] == [];
      }
    }
    TotalPoints(fs)
  }

  /** The points of a rule that may stay silent. */
  function BandPoints(f: Option<Finding>): (p: int)
    ensures f.None? ==> p == 0
  {
    match f
    case Some(g) => g.points
    case None => 0
  }

  /** The reasons given, always one for RSI, MACD and trend, in that order,
      and a fourth for the bands exactly when the band rule fires. */
  function Reasons(x: Indicators): (rs: seq<string>)
    ensures 3 <= |rs| <= 4
    ensures rs[0] in {RsiOversold, RsiOverbought, RsiNeutral}
    ensures rs[1] in {MacdBullish, MacdBearish}
    ensures rs[2] in {AboveMa, BelowMa}
    ensures |rs| == 4 <==> x.close < x.lowerBand || x.close > x.upperBand
    ensures |rs| == 4 ==> rs[3] in {BelowLowerBand, AboveUpperBand}
    ensures rs == [RsiFinding(x.rsi).reason, MacdFinding(x.macd).reason, TrendFinding(x.close, x.ma).reason]
                  + BandReason(BandFinding(x.close, x.lowerBand, x.upperBand))
  {
    var fs := Findings(x);
    var rs := ReasonsOf(fs);
    assert rs[..3] == [fs[0].reason, fs[1].reason, fs[2].reason];
    assert rs[3..] == BandReason(BandFinding(x.close, x.lowerBand, x.upperBand)) by {
      if |fs| == 4 {
        assert rs[3..] == [fs[3].reason];
      }
    }
    assert rs == rs[..3] + rs[3..];
    rs
  }

  /** The reason of a rule that may stay silent, as a list of zero or one. */
  function BandReason(f: Option<Finding>): (r: seq<string>)
    ensures f.None? <==> r == []
  {
    match f
    case Some(g) => [g.reason]
    case None => []
  }

  /** The threshold mapping: a score of at least 2 is a buy, one of at most
      -2 a sell, anything strictly between a hold. */
  function Classify(score: int): (s: Signal)
    ensures s == Buy <==> score >= 2
    ensures s == Sell <==> score <= -2
    ensures s == Hold <==> -2 < score < 2
  {
    if score >= 2 then Buy else if score <= -2 then Sell else Hold
  }

  /** The text the source returns for a signal. */
  function Label(s: Signal): (l: string)
    ensures l in {"Buy", "Hold", "Sell"}
    ensures l == "Buy" <==> s == Buy
    ensures l == "Sell" <==> s == Sell
    ensures l == "Hold" <==> s == Hold
  {
    match s
    case Buy => "Buy"
    case Hold => "Hold"
    case Sell => "Sell"
  }

  /** Sell ranks below Hold, which ranks below Buy. */
  function Rank(s: Signal): int {
    match s
    case Sell => 0
    case Hold => 1
    case Buy => 2
  }

  /** Runs the four rules in order, accumulating the score and appending
      one reason per rule that speaks, as the source does with a local
      counter and a list. */
  method ApplyRules(ma: real, closePrice: real, rsi: real, macd: real,
                    lowerBand: real, upperBand: real)
    returns (score: int, reasons: seq<string>)
    ensures score == RsiFinding(rsi).points + MacdFinding(macd).points
                     + TrendFinding(closePrice, ma).points
                     + BandPoints(BandFinding(closePrice, lowerBand, upperBand))
    ensures reasons == [RsiFinding(rsi).reason, MacdFinding(macd).reason,
                        TrendFinding(closePrice, ma).reason]
                       + BandReason(BandFinding(closePrice, lowerBand, upperBand))
  {
    reasons := [];
    score := 0;

    if rsi < 30.0 {
      score := score + 2; reasons := reasons + [RsiOversold];
    } else if rsi > 70.0 {
      score := score - 2; reasons := reasons + [RsiOverbought];
    } else {
      reasons := reasons + [RsiNeutral];
    }
    ghost var rsiF := RsiFinding(rsi);
    assert score == rsiF.points && reasons == [rsiF.reason];

    if macd > 0.0 {
      score := score + 1; reasons := reasons + [MacdBullish];
    } else {
      score := score - 1; reasons := reasons + [MacdBearish];
    }
    ghost var macdF := MacdFinding(macd);
    assert score == rsiF.points + macdF.points && reasons == [rsiF.reason, macdF.reason];

    if closePrice > ma {
      score := score + 1; reasons := reasons + [AboveMa];
    } else {
      score := score - 1; reasons := reasons + [BelowMa];
    }
    ghost var trendF := TrendFinding(closePrice, ma);
    assert score == rsiF.points + macdF.points + trendF.points;
    assert reasons == [rsiF.reason, macdF.reason, trendF.reason];

    ghost var before := score;
    if closePrice < lowerBand {
      score := score + 1; reasons := reasons + [BelowLowerBand];
    } else if closePrice > upperBand {
      score := score - 1; reasons := reasons + [AboveUpperBand];
    }
    ghost var bandF := BandFinding(closePrice, lowerBand, upperBand);
    assert score == before + BandPoints(bandF);
    assert reasons == [rsiF.reason, macdF.reason, trendF.reason] + BandReason(bandF);
  }

  /** The signal and the "; "-joined reasons for the six indicator values:
      the rules' score mapped through the thresholds. Both results are
      functions of the inputs alone. */
  method GetInvestmentSignal(ma: real, closePrice: real, rsi: real, macd: real,
                             lowerBand: real, upperBand: real)
    returns (signal: string, reason: string)
    ensures signal in {"Buy", "Hold", "Sell"}
    ensures var sc := Score(Indicators(ma, closePrice, rsi, macd, lowerBand, upperBand));
            (signal == "Buy" <==> sc >= 2) && (signal == "Sell" <==> sc <= -2)
            && (signal == "Hold" <==> -2 < sc < 2)
    ensures signal == Label(Classify(Score(Indicators(ma, closePrice, rsi, macd, lowerBand, upperBand))))
    ensures reason == Text.Join(Reasons(Indicators(ma, closePrice, rsi, macd, lowerBand, upperBand)), "; ")
  {
    var score, reasons := ApplyRules(ma, closePrice, rsi, macd, lowerBand, upperBand);
    if score >= 2 {
      return "Buy", Text.Join(reasons, "; ");
    } else if score <= -2 {
      return "Sell", Text.Join(reasons, "; ");
    } else {
      return "Hold", Text.Join(reasons, "; ");
    }
  }

  // -----------------------------------------------------------------------
  // Properties of the decision.

  /** The three labels are distinct, so the text names the signal. */
  lemma LabelInjective(a: Signal, b: Signal)
    requires Label(a) == Label(b)
    ensures a == b
  {
  }

  /** A higher score never gives a more bearish signal. */
  lemma ClassifyMonotone(a: int, b: int)
    requires a <= b
    ensures Rank(Classify(a)) <= Rank(Classify(b))
  {
  }

  /** RSI exactly at either threshold is neutral and contributes nothing. */
  lemma RsiThresholdsAreNeutral(rsi: real)
    requires rsi == 30.0 || rsi == 70.0
    ensures RsiFinding(rsi) == Finding(0, RsiNeutral)
  {
  }

  /** A MACD of exactly zero counts as bearish. */
  lemma ZeroMacdIsBearish()
    ensures MacdFinding(0.0) == Finding(-1, MacdBearish)
  {
  }

  /** A close exactly at the moving average counts as a downtrend. */
  lemma CloseAtMaIsDowntrend(price: real)
    ensures TrendFinding(price, price) == Finding(-1, BelowMa)
  {
  }

  /** Below the lower band the rebound reason is taken whatever the upper
      band is, even when the bands are inverted. */
  lemma LowerBandTakesPrecedence(close: real, lowerBand: real, upperBand: real)
    requires close < lowerBand
    ensures BandFinding(close, lowerBand, upperBand) == Some(Finding(1, BelowLowerBand))
  {
  }

  /** A close within the bands adds neither points nor a reason. */
  lemma InsideBandsIsSilent(x: Indicators)
    requires x.lowerBand <= x.close <= x.upperBand
    ensures |Reasons(x)| == 3
    ensures Score(x) == RsiFinding(x.rsi).points + MacdFinding(x.macd).points
                        + TrendFinding(x.close, x.ma).points
  {
  }

  /** Oversold RSI, positive MACD and a close above the moving average
      always give a buy, with a score of at least 3. */
  lemma AlignedBullishIsBuy(x: Indicators)
    requires x.rsi < 30.0 && x.macd > 0.0 && x.close > x.ma
    ensures Score(x) >= 3
    ensures Classify(Score(x)) == Buy
  {
  }

  /** Overbought RSI, non-positive MACD and a close at or below the moving
      average always give a sell, with a score of at most -3. */
  lemma AlignedBearishIsSell(x: Indicators)
    requires x.rsi > 70.0 && x.macd <= 0.0 && x.close <= x.ma
    ensures Score(x) <= -3
    ensures Classify(Score(x)) == Sell
  {
  }

  /** The returned reason text is the three or four reasons, in rule order,
      separated by "; ". */
  lemma ReasonText(x: Indicators)
    ensures var rs := Reasons(x);
            Text.Join(rs, "; ") == rs[0] + "; " + rs[1] + "; " + rs[2]
                                   + (if |rs| == 4 then "; " + rs[3] else "")
  {
    var rs := Reasons(x);
    if |rs| == 4 {
      assert rs == [rs[0], rs[1], rs[2], rs[3]];
      JoinOfFour(rs[0], rs[1], rs[2], rs[3], "; ");
    } else {
      assert rs == [rs[0], rs[1], rs[2]];
      JoinOfThree(rs[0], rs[1], rs[2], "; ");
    }
  }

  /** Joining three parts, written out. */
  lemma JoinOfThree(a: string, b: string, c: string, sep: string)
    ensures Text.Join([a, b, c], sep) == a + sep + b + sep + c
  {
    assert [a, b, c][1..] == [b, c];
    assert [b, c][1..] == [c];
    assert Text.Join([b, c], sep) == b + sep + c;
    assert a + sep + (b + sep + c) == a + sep + b + sep + c;
  }

  /** Joining four parts, written out. */
  lemma JoinOfFour(a: string, b: string, c: string, d: string, sep: string)
    ensures Text.Join([a, b, c, d], sep) == a + sep + b + sep + c + sep + d
  {
    assert [a, b, c, d][1..] == [b, c, d];
    JoinOfThree(b, c, d, sep);
    assert a + sep + (b + sep + c + sep + d) == a + sep + b + sep + c + sep + d;
  }
}
