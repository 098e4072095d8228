# IPO dashboard: news sentiment and GMP card, modelled in Dafny

The dashboard (`app.py`, a Streamlit page) shows one card per IPO. Each card
computes a few figures from the row's issue price, lot size and grey-market
premium (GMP): estimated listing price, estimated gain in percent, profit or
loss per lot, and a colour class. Below those figures it shows the "market
mood". `get_news_sentiment` gets it in four steps:

1. It cleans the company name into a news query.
2. It reads at most five headlines from a news feed.
3. It averages their polarity scores.
4. It turns the average into a three-way rating and a 0-100 score.

The Dafny project models that logic with the I/O taken out:

- `python_str.dfy`, module `PythonStr`: the two Python string operations the
  query cleaning at `app.py:149` calls, and the vocabulary its lemmas are
  stated in. Strings are sequences of Unicode scalar values (Dafny's `char`
  excludes the surrogates U+D800-U+DFFF, which a Python `str` can hold).
  - `Replace` models `str.replace`: one left-to-right pass over leftmost,
    non-overlapping occurrences, including Python's behaviour for an empty
    pattern.
  - `Strip` models `str.strip()` without arguments, over `IsSpace`, CPython's
    set of whitespace code points for `str.isspace`.
  - `Count` (`str.count`) and `Contains` (the `in` operator) are not called
    by the source; the lemmas about `Replace` are stated in terms of them.
- `news_sentiment.dfy`, module `NewsSentiment`:
  - `CleanQuery` models the query cleaning at `app.py:149`;
  - the feed is already-parsed input (`Feed`, `FeedItem`);
  - `Take` models the slice `[:5]` at `app.py:158`, and `Collect` the loop
    body at `app.py:159-163` together with the `except` at `app.py:164-165`;
  - `Mean` models the average at `app.py:169`, `Classify` the if/elif chain
    at `app.py:170-172`, and `Score` (with `PyInt` for Python's `int()`) the
    score at `app.py:174`;
  - `Sentiment` is the specification function for the whole of
    `app.py:153-174`, and the method `GetNewsSentiment` is the loop with its
    accumulator, proved to return exactly `Sentiment(feed)`;
  - there are three outcomes: `Failed` for the source's `[]`, `NoNews` for
    `None`, `Report` for the record.
- `gmp_card.dfy`, module `GmpCard`: `Figures` models the arithmetic of
  `render_gmp_card` at `app.py:194-196` and `app.py:223`, with `CssClass` for
  the colour class at `app.py:196`.

Details of the code that the model keeps:

- The average is the plain mean of the kept scores, `sum / len`
  (`app.py:169`).
- The rating has three bands, chosen by comparing the average with 0.3 and
  -0.3; both thresholds themselves give "Neutral" (`app.py:170-172`).
- The score is Python's `int()` of `(avg + 1) * 50`, which truncates toward
  zero (`app.py:174`).
- A feed item among the first five that lacks a title, link or date raises
  inside the `try`, so the whole call returns `[]` (`app.py:158-165`).
- A price of zero raises `ZeroDivisionError` in the percentage
  (`app.py:195`); nothing catches it.

## Model

| member | source | states |
|---|---|---|
| PythonStr.ReplaceLength | app.py:149 | each replacement changes the length by exactly the length difference of replacement and pattern, once per occurrence |
| PythonStr.RemoveShrinks | app.py:149 | removing a non-empty substring shortens the string by the count of occurrences times their length, so never lengthens it |
| PythonStr.ContainsIffCounted | app.py:149 | `pat in s` holds exactly when the scan counts at least one occurrence |
| PythonStr.ReplaceSplit | app.py:149 | a character that does not occur in the pattern splits `replace`: the parts on either side are replaced independently, since no occurrence can straddle it |
| PythonStr.ReplaceAbsent | app.py:149 | a string without the pattern comes back from `replace` unchanged |
| PythonStr.ReplaceBySelf | app.py:149 | replacing a pattern by itself is the identity, the empty pattern included |
| PythonStr.RemovalCanLeaveOccurrence | app.py:149 | one pass does not remove occurrences it creates: `"LtLtdd".replace("Ltd", "")` is `"Ltd"` |
| PythonStr.LeadingSpace | app.py:149 | the leading run counted is all whitespace and is followed by a non-whitespace character or the end |
| PythonStr.TrailingSpace | app.py:149 | the trailing run counted is all whitespace and is preceded by a non-whitespace character or the start |
| PythonStr.Strip | app.py:149 | `strip()` returns a slice of the input with only whitespace outside it, and the slice neither starts nor ends with whitespace |
| PythonStr.StripUntrimmed | app.py:149 | a string with no whitespace at either end is its own `strip()` |
| PythonStr.StripIdempotent | app.py:149 | stripping twice equals stripping once |
| NewsSentiment.CleanQueryBounds | app.py:149 | the cleaned query has no leading or trailing whitespace and is never longer than the name |
| NewsSentiment.CleanQueryKeepsPlainName | app.py:149 | a name with no "Ltd", no "Limited" and no surrounding whitespace is used unchanged |
| NewsSentiment.CleanQueryStable | app.py:149 | when the cleaned query contains neither word, cleaning it again changes nothing |
| NewsSentiment.CleanQueryDropsSuffix | app.py:149 | a trimmed name containing neither word, followed by " Ltd" or " Limited", is searched for as the bare name |
| NewsSentiment.StripTrailingBlank | app.py:149 | `strip()` removes the single blank left behind after a trimmed name once the suffix word is gone |
| NewsSentiment.Take | app.py:158 | `xs[:n]` keeps min(n, len) elements, the leading ones, in order |
| NewsSentiment.CollectSpec | app.py:158-165 | collecting fails exactly when some kept item lacks title, link or date; otherwise one news entry per item, in feed order |
| NewsSentiment.SumBounds | app.py:169 | a sum of n values in [lo, hi] lies in [n·lo, n·hi] |
| NewsSentiment.MeanBounds | app.py:169 | the average times the count is the sum, and the average lies within any bounds of the scores, so in [-1, 1] for compound scores |
| NewsSentiment.Classify | app.py:170-172 | positive iff avg > 0.3, negative iff avg < -0.3, neutral iff -0.3 ≤ avg ≤ 0.3 (both thresholds are neutral) |
| NewsSentiment.LabelsDistinct | app.py:170-172 | the three rating strings are pairwise different |
| NewsSentiment.PyInt | app.py:174 | Python's `int()` on a number truncates toward zero |
| NewsSentiment.ScoreRange | app.py:174 | for avg ≥ -1 the score is the floor of (avg+1)·50, and it lies in [0, 100] for avg in [-1, 1] |
| NewsSentiment.ScoreMonotone | app.py:174 | the score is non-decreasing in the average; avg = -1 gives 0 and avg = 1 gives 100 |
| NewsSentiment.RatingMatchesScore | app.py:170-174 | positive rating implies score ≥ 65, negative implies ≤ 34, neutral implies 35..65 |
| NewsSentiment.GetNewsSentiment | app.py:153-174 | the loop with its accumulator and the reassigned rating return exactly `Sentiment(feed)` |
| NewsSentiment.SentimentOutcomes | app.py:155-174 | `[]` exactly on a failed fetch or an unreadable item among the first five; `None` exactly for an empty item list; otherwise a report of 1 to 5 items taken in order from the feed |
| NewsSentiment.OnlyFirstFiveMatter | app.py:158 | items after the fifth, malformed or not, do not change the result |
| NewsSentiment.ReportBounds | app.py:169-174 | with scores in [-1, 1] a report's average is the arithmetic mean in [-1, 1], its score is in [0, 100] and agrees with its rating |
| NewsSentiment.CallerView | app.py:233-236 | the card shows "no buzz" both for `[]` and for `None`; for a report the progress value score/100 lies in [0, 1] |
| GmpCard.CssClass | app.py:196 | the class is `profit-text` iff GMP > 0, `loss-text` iff GMP ≤ 0 (so GMP = 0 is a loss) |
| GmpCard.FiguresRelate | app.py:194-196 | listing price minus issue price is the GMP; the percentage times the price gives 100·GMP; the profit class is chosen iff the listing price exceeds the issue price |
| GmpCard.PercentSign | app.py:195 | for a positive issue price the percentage has the sign of the GMP |
| GmpCard.LotProfit | app.py:223 | profit per lot is the per-share gain times the lot; for a positive lot it is positive iff the cell has the profit class |
| GmpCard.SnapshotCards | app.py:95-140 | the five rows of the January 2026 snapshot give the expected card figures |

## Left out

- Network I/O is left out. This covers `requests.get` with its 5-second timeout, the RSS URL built from the cleaned query, and `ElementTree` parsing. The feed is an input: either `FetchFailed` or the parsed list of `<item>` elements. A missing child element stands for the `AttributeError` the source catches.
- The VADER polarity scorer is a foreign library. Each item carries its compound score as a given real. The bounds lemmas assume scores lie in [-1, 1].
- Element text is always a string in the model. An element present with no text (`.text` is `None`) is treated like empty text. What the foreign scorer does with such a title is outside the model.
- Building the `SentimentIntensityAnalyzer` outside the `try` block is not modelled.
- Floating point is not modelled. Scores, averages, the 0.3 thresholds and the percentage are exact reals. Binary rounding near a threshold or near an integer score is not captured.
- The percentage's `+.2f` formatting is not modelled.
- NewsSentiment.Sentiment returns the rating as a value of `Rating`. The source returns its label string, which `Label` gives.
- GmpCard.Figures: a zero issue price is a precondition. The source raises `ZeroDivisionError` there, and nothing catches it.
- `@st.cache_data` memoisation and its `ttl=900` are left out. They are framework behaviour.
- The Streamlit page is left out: configuration, CSS, tabs, widgets, HTML markup, the learning copy, and the funds and equity tabs with their static tables.
- The SIP calculator is left out. It uses floating-point compounding and display formatting.
- `load_ipo_data` holds static data. It is used only as example input (GmpCard.SnapshotCards).
- Clock formatting and display slicing (`[:2]`, `[:16]`) are left out.
- A Python `str` may hold lone surrogates (U+D800-U+DFFF); Dafny's `char` cannot, so company names containing them are outside the model.
