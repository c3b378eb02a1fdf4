# Stock analysis tool: trade signal and ticker input, modelled in Dafny

The tool is a Streamlit app. It downloads prices for a list of tickers, computes technical indicators, derives a rule-based trade signal, asks a language model for commentary and runs a portfolio optimiser. This project models the two parts of it that are exact, deterministic logic:

- **The trade signal** (`get_investment_signal`, investment_signal.py). It takes six indicator values: moving average, close, RSI, MACD, lower and upper Bollinger band. Four rules run in a fixed order. Each rule adds points to an integer score and appends a reason: RSI gives +2, -2 or 0; MACD gives +1 or -1; price against the moving average gives +1 or -1; price against the bands gives +1, -1 or nothing. A score of at least 2 is "Buy", one of at most -2 is "Sell", anything between is "Hold". The reasons are returned joined by `"; "`. The app computes the six values but never calls this function, so it is modelled on its own.
- **The ticker list** (app.py, line 15). The comma-separated text the user types is split at every comma. Each field is then stripped of surrounding whitespace and upper-cased.

Layout:

- `text.dfy`, module `Text`: the string built-ins both parts use. It holds split at a character, join with a separator, whitespace strip and upper-casing, with their algebra: split and join are inverse to each other, and strip and upper-case are idempotent.
- `investment_signal.dfy`, module `InvestmentSignal`: the signal. The method `GetInvestmentSignal` has the source's shape: a local score and a list of reasons, updated rule by rule. Its rule blocks are in `ApplyRules`, and the threshold mapping and join follow in `GetInvestmentSignal`. Both methods are proved against specification functions: one function per rule (`RsiFinding`, `MacdFinding`, `TrendFinding`, `BandFinding`), plus `Score`, `Reasons` and `Classify`. Lemmas state properties of these functions: the boundary cases, the bounds, the reason order and the strong buy and sell combinations.
- `ticker_input.dfy`, module `TickerInput`: the ticker normalisation as pure functions, with lemmas about empty input, adjacent commas and idempotence.

The indicator values are modelled as `real`, because the source only compares them. The score is an unbounded `int`, and it stays within [-5, 5]. Both methods change no state and read none, and their results are equal to functions of the six inputs. So the same inputs always give the same signal and reason.

Notes on the source:

- The function's comment says MACD "< 0" is bearish. The code's `else` branch also treats a MACD of exactly 0 as bearish and then gives the reason text "MACD shows bearish momentum (<0)". The model follows the code (`ZeroMacdIsBearish`).
- A close equal to the moving average takes the "Price below MA (downtrend)" branch. The model follows the code (`CloseAtMaIsDowntrend`).
- The band rule tests the lower band first. A close below the lower band therefore always counts as a rebound, even when the bands are inverted (`LowerBandTakesPrecedence`).

## Model

| member | source | states |
|---|---|---|
| `InvestmentSignal.RsiFinding` | investment_signal.py:14-20 | RSI contributes only +2, 0 or -2: +2 exactly when RSI < 30, -2 exactly when RSI > 70. The reason is the one matching the contribution (oversold, overbought or neutral). |
| `InvestmentSignal.MacdFinding` | investment_signal.py:22-26 | MACD contributes +1 exactly when MACD > 0 and -1 otherwise, with the bullish or bearish reason to match. |
| `InvestmentSignal.TrendFinding` | investment_signal.py:28-32 | The trend rule contributes +1 exactly when close > MA and -1 otherwise, with the uptrend or downtrend reason to match. |
| `InvestmentSignal.BandFinding` | investment_signal.py:34-38 | The band rule speaks exactly when close < lower or close > upper. It gives +1 (rebound) exactly when close < lower, otherwise -1 (pullback). |
| `InvestmentSignal.Findings` | investment_signal.py:11-38 | The rules' findings come in order RSI, MACD, trend, then a fourth only when the band rule speaks. |
| `InvestmentSignal.Score` | investment_signal.py:12-38 | The final score is the sum of the four rules' contributions and always lies in [-5, 5]. |
| `InvestmentSignal.Reasons` | investment_signal.py:11-38 | There are 3 or 4 reasons: first an RSI text, then a MACD text, then a trend text, then a band text. There are 4 exactly when close lies outside [lower, upper]. |
| `InvestmentSignal.Classify` | investment_signal.py:40-45 | The signal is Buy iff score >= 2, Sell iff score <= -2, and Hold iff -2 < score < 2. |
| `InvestmentSignal.Label` | investment_signal.py:40-45 | The signal text is one of "Buy", "Hold", "Sell", and it is "Buy" exactly for Buy, "Sell" exactly for Sell and "Hold" exactly for Hold. |
| `InvestmentSignal.ApplyRules` | investment_signal.py:11-38 | Running the four rule blocks on a local counter and list leaves the counter equal to the sum of the rules' points. It leaves the list equal to the rules' reasons in rule order, the band reason only when that rule speaks. |
| `InvestmentSignal.GetInvestmentSignal` | investment_signal.py:2-45 | The returned signal is "Buy" exactly when the rules' score is at least 2, "Sell" exactly when it is at most -2, and "Hold" exactly when it lies strictly between; it is the label of `Classify(Score(x))`. The returned reason is `Reasons(x)` joined with "; ". Both depend on the six inputs alone. |
| `InvestmentSignal.LabelInjective` | investment_signal.py:40-45 | Different signals have different texts. |
| `InvestmentSignal.ClassifyMonotone` | investment_signal.py:40-45 | A higher score never gives a more bearish signal (Sell < Hold < Buy). |
| `InvestmentSignal.RsiThresholdsAreNeutral` | investment_signal.py:15-20 | RSI exactly 30 or exactly 70 is neutral and contributes 0. |
| `InvestmentSignal.ZeroMacdIsBearish` | investment_signal.py:23-26 | A MACD of exactly 0 counts as bearish (-1). |
| `InvestmentSignal.CloseAtMaIsDowntrend` | investment_signal.py:29-32 | A close exactly at the MA counts as a downtrend (-1). |
| `InvestmentSignal.LowerBandTakesPrecedence` | investment_signal.py:35-38 | Below the lower band the rebound (+1) is taken whatever the upper band is, inverted bands included. |
| `InvestmentSignal.InsideBandsIsSilent` | investment_signal.py:35-38 | A close within [lower, upper] adds no reason, and the score is the other three rules' sum. |
| `InvestmentSignal.AlignedBullishIsBuy` | investment_signal.py:14-45 | RSI < 30, MACD > 0 and close > MA together give a score of at least 3, so Buy. |
| `InvestmentSignal.AlignedBearishIsSell` | investment_signal.py:14-45 | RSI > 70, MACD <= 0 and close <= MA together give a score of at most -3, so Sell. |
| `InvestmentSignal.ReasonText` | investment_signal.py:40-45 | The reason text is the three or four reasons in rule order, separated by "; ". |
| `Text.IsSpaceIsAsciiWhitespace` | app.py:15 | The whitespace test accepts exactly the ten ASCII whitespace characters: tab, line feed, vertical tab, form feed, carriage return, 0x1C-0x1F and space. |
| `Text.CountIsMultiplicity` | app.py:15 | The separator count used for the field count is the number of occurrences of the character in the string. |
| `Text.Join` | investment_signal.py:41-45 | The joined text of a non-empty list is as long as its parts together plus one separator between each pair of neighbours. Its partners are `JoinSplit` and `SplitJoin` (join and split are inverse) and `InvestmentSignal.ReasonText` (the reasons text written out). |
| `Text.Split` | app.py:15 | Splitting at a separator gives exactly one more field than there are separators, so the empty string gives one empty field. |
| `Text.SplitFieldsOmitSeparator` | app.py:15 | No field of a split contains the separator. |
| `Text.JoinSplit` | app.py:15 | Joining the fields of a split with the separator gives back the input. |
| `Text.SplitJoin` | app.py:15 | For any non-empty list of parts none of which contains the separator (empty parts allowed), splitting their join gives back the list. Fields are therefore the comma-separated pieces, in order. |
| `Text.SplitAppend` | app.py:15 | The fields of `a + sep + b` are the fields of `a` followed by the fields of `b`. |
| `Text.SplitAdjacentSeparators` | app.py:15 | Two adjacent separators give an empty field between the fields before and after them. |
| `Text.UpperChar` | app.py:15 | Upper-casing a character maps ASCII a-z to A-Z, leaves every other character alone and keeps whitespace whitespace. |
| `Text.Upper` | app.py:15 | Upper-casing keeps the length and maps each character by `UpperChar`. |
| `Text.Strip` | app.py:15 | The stripped string neither starts nor ends with whitespace. It is the slice that begins after the leading whitespace, and only whitespace lies outside it. |
| `Text.SkipSpace` | app.py:15 | Skipping leading whitespace stops at the first non-whitespace character, or at the end. |
| `Text.SkipSpaceBack` | app.py:15 | Skipping trailing whitespace stops just after the last non-whitespace character, or at the lower bound. |
| `Text.StripOfStripped` | app.py:15 | Strip leaves a string without surrounding whitespace unchanged. |
| `Text.UpperOfUpperCased` | app.py:15 | Upper-casing leaves a string without lower-case letters unchanged. |
| `Text.UpperKeepsStripped` | app.py:15 | Upper-casing a stripped string keeps it stripped. |
| `Text.UpperOfSlice` | app.py:15 | Upper-casing a slice upper-cases each character it covers, in place. |
| `TickerInput.NormalizeTicker` | app.py:15 | The ticker is the field's characters from its first non-whitespace character on, each upper-cased, and only whitespace of the field lies before or after them. It has no leading or trailing whitespace and no lower-case letter, and upper-casing it again changes nothing. |
| `TickerInput.NormalizeKeepsCommaFree` | app.py:15 | A field without a comma gives a ticker without a comma. |
| `TickerInput.NormalizeTickers` | app.py:15 | The list has one more entry than the input has commas. Entry k is the k-th comma-separated field, normalised. Every entry is stripped, upper-case and comma-free. |
| `TickerInput.EmptyInputGivesOneEmptyTicker` | app.py:14-15 | The default empty input gives `[""]`, not an empty list. |
| `TickerInput.AdjacentCommasGiveEmptyTicker` | app.py:15 | Two adjacent commas produce an empty ticker at the position after the fields before them. |
| `TickerInput.NormalizeIdempotent` | app.py:15 | Joining the tickers with "," and normalising again gives the same list. |

## Left out

- portfolio_optimiser.py is not part of this model. It is floating-point statistics (percentage change, mean, covariance) fed to an external constrained solver, and its result is whatever that solver returns.
- indicators.py is not part of this model. Its values are the rolling and exponential floating-point computations of a data-frame library, interleaved with chart rendering. The signal takes their results as inputs.
- data_loader.py and ai_insights.py are not part of this model. They are a market-data download and a hosted language-model call, that is network I/O through foreign clients.
- app.py apart from line 15 is user-interface code (widgets, the per-ticker loop, display), and so is not modelled.
- NaN is not modelled. The signal is stated over Dafny `real`, which has no NaN. With floating-point inputs every comparison with NaN is false, so a NaN RSI would count as neutral; the model claims nothing about that case.
- Text.IsSpace and Text.Strip: only the ASCII whitespace characters (tab, line feed, vertical tab, form feed, carriage return, 0x1C-0x1F and space) are modelled. Non-ASCII whitespace that the built-in strip also removes is treated as ordinary text.
- Text.UpperChar and Text.Upper: only ASCII a-z are upper-cased. Non-ASCII characters are left unchanged, although the built-in maps many of them (and can change the length, as with "ß" to "SS").
- InvestmentSignal.ApplyRules: the four rule blocks of the function are a method of their own, whose results the threshold mapping then uses. The source has them inline in one function. The behaviour is the same.
