/** The normalisation of the comma-separated ticker list typed by the user
    (app.py, line 15): the input is split at every comma and each field is
    stripped of surrounding whitespace and upper-cased. */
module TickerInput {
  import Text

  /** One field of the input, normalised: whitespace stripped from both
      ends, then upper-cased. The ticker is the field's characters after its
      leading whitespace, each upper-cased, with only whitespace beyond. */
  function NormalizeTicker(field: string): (t: string)
    ensures Text.IsStripped(t)
    ensures Text.IsUpperCased(t)
    ensures Text.Upper(t) == t
    ensures var i := Text.SkipSpace(field, 0);
            i + |t| <= |field| && Text.SpaceOutside(field, i, i + |t|)
            && forall k :: 0 <= k < |t| ==> t[k] == Text.UpperChar(field[i + k])
  {
    var s := Text.Strip(field);
    var t := Text.Upper(s);
    ghost var i := Text.SkipSpace(field, 0);
    Text.UpperOfSlice(field, i, i + |s|);
    Text.UpperKeepsStripped(s);
    Text.UpperOfUpperCased(t);
    t
  }

  /** A field without a comma gives a ticker without one. */
  lemma NormalizeKeepsCommaFree(field: string)
    requires ',' !in field
    ensures ',' !in NormalizeTicker(field)
  {
    var t, i := NormalizeTicker(field), Text.SkipSpace(field, 0);
    forall k | 0 <= k < |t|
      ensures t[k] != ','
    {
      assert field[i + k] in field;
    }
  }

  /** The ticker list for the raw input `s`: one entry per comma-separated
      field, in the order of the fields, each one normalised. */
  function NormalizeTickers(s: string): (tickers: seq<string>)
    ensures |tickers| == Text.Count(s, ',') + 1
    ensures forall k :: 0 <= k < |tickers| ==> tickers[k] == NormalizeTicker(Text.Split(s, ',')[k])
    ensures forall k :: 0 <= k < |tickers| ==> Text.IsStripped(tickers[k]) && Text.IsUpperCased(tickers[k])
    ensures forall k :: 0 <= k < |tickers| ==> ',' !in tickers[k]
  {
    var fields := Text.Split(s, ',');
    Text.SplitFieldsOmitSeparator(s, ',');
    assert forall k :: 0 <= k < |fields| ==> ',' !in NormalizeTicker(fields[k]) by {
      forall k | 0 <= k < |fields| {
        NormalizeKeepsCommaFree(fields[k]);
      }
    }
    seq(|fields|, k requires 0 <= k < |fields| => NormalizeTicker(fields[k]))
  }

  /** The default, empty input gives a list holding one empty ticker, not an
      empty list. */
  lemma EmptyInputGivesOneEmptyTicker()
    ensures NormalizeTickers("") == [""]
  {
    assert Text.Split("", ',') == [""];
    assert Text.Strip("") == "";
  }

  /** Two adjacent commas give an empty ticker between them. */
  lemma AdjacentCommasGiveEmptyTicker(a: string, b: string)
    ensures var tickers := NormalizeTickers(a + ",," + b);
            Text.Count(a, ',') + 1 < |tickers| && tickers[Text.Count(a, ',') + 1] == ""
  {
    var s := a + ",," + b;
    assert s == a + [',', ','] + b;
    Text.SplitAdjacentSeparators(a, ',', b);
    var fa := Text.Split(a, ',');
    assert Text.Split(s, ',')[|fa|] == "";
    assert NormalizeTicker("") == "" by {
      assert Text.Strip("") == "";
    }
  }

  /** Normalising is idempotent: joining the tickers with commas and
      normalising that again gives the same tickers. */
  lemma {:induction false} NormalizeIdempotent(s: string)
    ensures NormalizeTickers(Text.Join(NormalizeTickers(s), ",")) == NormalizeTickers(s)
  {
    var tickers := NormalizeTickers(s);
    Text.SplitJoin(tickers, ',');
    var again := NormalizeTickers(Text.Join(tickers, ","));
    forall k | 0 <= k < |tickers|
      ensures again[k] == tickers[k]
    {
      Text.StripOfStripped(tickers[k]);
    }
  }
}
