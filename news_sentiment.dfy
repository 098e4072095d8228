/** `get_news_sentiment(query)` of the IPO dashboard: clean the company name
    into a news query, collect at most five headlines from the parsed feed,
    average their polarity scores, and turn the average into a rating band
    and a 0-100 score. The HTTP request, the XML parser and the polarity
    scorer are outside the model: the feed arrives already parsed (or as a
    failure) and each item carries the compound score of its title. */
module NewsSentiment {
  import opened PythonStr

  datatype Option<T> = None | Some(value: T)

  // ---------------------------------------------------------------------
  // Query cleaning

  /** `query.replace("Ltd", "").replace("Limited", "").strip()`. */
  function CleanQuery(query: string): string {
    Strip(Replace(Replace(query, "Ltd", ""), "Limited", ""))
  }

  /** The cleaned query never starts or ends with whitespace and is never
      longer than the name it came from. */
  lemma CleanQueryBounds(query: string)
    ensures var r := CleanQuery(query);
      && (r == [] || (!IsSpace(r[0]) && !IsSpace(r[|r| - 1])))
      && |r| <= |query|
  {
    RemoveShrinks(query, "Ltd");
    RemoveShrinks(Replace(query, "Ltd", ""), "Limited");
  }

  /** A name without "Ltd", without "Limited" and without surrounding
      whitespace goes into the news query as it is. */
  lemma CleanQueryKeepsPlainName(query: string)
    requires !Contains(query, "Ltd") && !Contains(query, "Limited")
    requires query == [] || (!IsSpace(query[0]) && !IsSpace(query[|query| - 1]))
    ensures CleanQuery(query) == query
  {
    ReplaceAbsent(query, "Ltd", "");
    ReplaceAbsent(query, "Limited", "");
    StripUntrimmed(query);
  }

  /** Cleaning a name that already came out of cleaning changes nothing more
      whenever the first pass left no "Ltd" or "Limited" behind. */
  lemma CleanQueryStable(query: string)
    requires !Contains(CleanQuery(query), "Ltd") && !Contains(CleanQuery(query), "Limited")
    ensures CleanQuery(CleanQuery(query)) == CleanQuery(query)
  {
    CleanQueryBounds(query);
    CleanQueryKeepsPlainName(CleanQuery(query));
  }

  /** A name with the company suffix " Ltd" or " Limited" is searched for
      without it. */
  lemma CleanQueryDropsSuffix(name: string)
    requires name != [] && !IsSpace(name[0]) && !IsSpace(name[|name| - 1])
    requires !Contains(name, "Ltd") && !Contains(name, "Limited")
    ensures CleanQuery(name + " Ltd") == name
    ensures CleanQuery(name + " Limited") == name
  {
    ReplaceAbsent(name, "Ltd", "");
    ReplaceAbsent(name, "Limited", "");
    SuffixWords();
    ReplaceSplit(name, ' ', [], "Limited", "");
    ReplaceSplit(name, ' ', [], "Ltd", "");
    assert name + [' '] + [] == name + [' '];
    DropLtd(name);
    DropLimited(name);
    StripTrailingBlank(name);
  }

  lemma DropLtd(name: string)
    requires Replace(name, "Ltd", "") == name
    ensures Replace(name + " Ltd", "Ltd", "") == name + [' ']
  {
    SuffixWords();
    ReplaceSplit(name, ' ', "Ltd", "Ltd", "");
    Assoc(name, [' '], "Ltd");
  }

  lemma DropLimited(name: string)
    requires Replace(name, "Ltd", "") == name && Replace(name, "Limited", "") == name
    ensures Replace(Replace(name + " Limited", "Ltd", ""), "Limited", "") == name + [' ']
  {
    SuffixWords();
    ReplaceSplit(name, ' ', "Limited", "Ltd", "");
    Assoc(name, [' '], "Limited");
    ReplaceSplit(name, ' ', "Limited", "Limited", "");
  }

  /** How the two suffix words behave under the two removals. */
  lemma SuffixWords()
    ensures Replace("Ltd", "Ltd", "") == []
    ensures Replace("Limited", "Limited", "") == []
    ensures Replace("Limited", "Ltd", "") == "Limited"
    ensures " Ltd" == [' '] + "Ltd" && " Limited" == [' '] + "Limited"
  {
    RemoveWholeWord("Ltd");
    RemoveWholeWord("Limited");
    LimitedHasNoLtd();
    ReplaceAbsent("Limited", "Ltd", "");
  }

  lemma RemoveWholeWord(w: string)
    requires w != []
    ensures Replace(w, w, "") == []
  {
    assert StartsWith(w, w) && w[|w|..] == [];
    ReplaceAtMatch(w, w, "");
    assert Replace([], w, "") == [];
  }

  lemma LimitedHasNoLtd()
    ensures !Contains("Limited", "Ltd")
  {
    forall i | 0 <= i <= 7 ensures !StartsWith("Limited"[i..], "Ltd") {
      if i + 3 <= 7 { assert "Limited"[i..][..3][1] != 't' || "Limited"[i..][..3][0] != 'L'; }
    }
  }

  /** One trailing blank after a trimmed name is stripped off. */
  lemma StripTrailingBlank(name: string)
    requires name != [] && !IsSpace(name[0]) && !IsSpace(name[|name| - 1])
    ensures Strip(name + [' ']) == name
  {
    var s := name + [' '];
    assert LeadingSpace(s) == 0;
    assert s[..|s| - 1] == name;
    assert TrailingSpace(name) == 0;
    assert TrailingSpace(s) == 1;
  }

  // ---------------------------------------------------------------------
  // Feed items and the collected news

  /** One `<item>` of the feed's channel. A child element that is missing is
      `None`: reading its `.text` raises, which the source turns into the
      failure result. `score` is the compound polarity the foreign scorer
      gives the title. */
  datatype FeedItem = FeedItem(title: Option<string>, link: Option<string>,
                               pubDate: Option<string>, score: real)

  /** What the request and the XML parse produce: a failure (connection
      error, timeout, unparseable body) or the list `root.findall('./channel/item')`. */
  datatype Feed = FetchFailed | Parsed(items: seq<FeedItem>)

  /** One entry of `news_items`. */
  datatype NewsItem = NewsItem(title: string, link: string, date: string, score: real)

  /** The three results: `[]` after any exception, `None` when the feed had
      no items, and the record with rating, score and news otherwise. */
  datatype SentimentResult =
    | Failed
    | NoNews
    | Report(rating: Rating, score: int, news: seq<NewsItem>)

  datatype Rating = Positive | Neutral | Negative

  /** The rating strings the source returns. */
  function Label(r: Rating): string {
    match r
    case Positive => "Positive \U{1F7E2}"
    case Neutral => "Neutral \U{2696}\U{FE0F}"
    case Negative => "Negative \U{1F534}"
  }

  /** The three labels are different strings. */
  lemma LabelsDistinct(a: Rating, b: Rating)
    ensures Label(a) == Label(b) <==> a == b
  {
    if a != b {
      assert Label(a)[2] != Label(b)[2];
    }
  }

  /** The first at most `n` elements, as Python's `xs[:n]`. */
  function Take<T>(xs: seq<T>, n: nat): (r: seq<T>)
    ensures |r| == if |xs| < n then |xs| else n
    ensures forall i :: 0 <= i < |r| ==> r[i] == xs[i]
  {
    if |xs| <= n then xs else xs[..n]
  }

  predicate Complete(item: FeedItem) {
    item.title.Some? && item.link.Some? && item.pubDate.Some?
  }

  function ToNews(item: FeedItem): NewsItem
    requires Complete(item)
  {
    NewsItem(item.title.value, item.link.value, item.pubDate.value, item.score)
  }

  /** The news list the loop builds from `items`, or `None` when reading one
      of them raises. */
  function Collect(items: seq<FeedItem>): Option<seq<NewsItem>>
    decreases |items|
  {
    if items == [] then Some([])
    else if !Complete(items[0]) then None
    else match Collect(items[1..])
      case None => None
      case Some(rest) => Some([ToNews(items[0])] + rest)
  }

  /** Collecting fails exactly when some item lacks a child element; when it
      succeeds the news list has one entry per item, in feed order. */
  lemma {:induction false} CollectSpec(items: seq<FeedItem>)
    ensures Collect(items).None? <==> exists i :: 0 <= i < |items| && !Complete(items[i])
    ensures Collect(items).Some? ==>
      && |Collect(items).value| == |items|
      && forall i :: 0 <= i < |items| ==> Complete(items[i]) && Collect(items).value[i] == ToNews(items[i])
    decreases |items|
  {
    if items != [] {
      CollectSpec(items[1..]);
      if !Complete(items[0]) {
        assert exists i :: 0 <= i < |items| && !Complete(items[i]);
      } else {
        forall i | 0 <= i < |items| - 1 ensures items[1..][i] == items[i + 1] { }
        if exists i :: 0 <= i < |items| && !Complete(items[i]) {
          var i :| 0 <= i < |items| && !Complete(items[i]);
          assert !Complete(items[1..][i - 1]);
        }
        if Collect(items).Some? {
          var rest := Collect(items[1..]).value;
          assert Collect(items).value == [ToNews(items[0])] + rest;
        }
      }
    }
  }

  // ---------------------------------------------------------------------
  // Averaging, banding and the 0-100 score

  function Scores(news: seq<NewsItem>): (r: seq<real>)
    ensures |r| == |news|
    ensures forall i :: 0 <= i < |news| ==> r[i] == news[i].score
  {
    seq(|news|, i requires 0 <= i < |news| => news[i].score)
  }

  /** `sum(xs)`. */
  function Sum(xs: seq<real>): real
    decreases |xs|
  {
    if xs == [] then 0.0 else xs[0] + Sum(xs[1..])
  }

  /** `sum(xs) / len(xs)`. */
  function Mean(xs: seq<real>): real
    requires xs != []
  {
    Sum(xs) / (|xs| as real)
  }

  /** A sum of values between `lo` and `hi` lies between n * lo and n * hi. */
  lemma {:induction false} SumBounds(xs: seq<real>, lo: real, hi: real)
    requires forall i :: 0 <= i < |xs| ==> lo <= xs[i] <= hi
    ensures (|xs| as real) * lo <= Sum(xs) <= (|xs| as real) * hi
    decreases |xs|
  {
    if xs != [] {
      SumBounds(xs[1..], lo, hi);
      assert (|xs| as real) * lo == lo + (|xs[1..]| as real) * lo;
      assert (|xs| as real) * hi == hi + (|xs[1..]| as real) * hi;
    }
  }

  /** The mean is the arithmetic mean (it times the count gives the sum) and
      lies within any bounds that hold for every value, in particular within
      [-1, 1] for compound polarity scores. */
  lemma MeanBounds(xs: seq<real>, lo: real, hi: real)
    requires xs != []
    requires forall i :: 0 <= i < |xs| ==> lo <= xs[i] <= hi
    ensures Mean(xs) * (|xs| as real) == Sum(xs)
    ensures lo <= Mean(xs) <= hi
  {
    SumBounds(xs, lo, hi);
    DivideBounds(Sum(xs), |xs| as real, lo, hi);
  }

  /** A total between n * lo and n * hi, divided by a positive n, lies
      between lo and hi. */
  lemma DivideBounds(s: real, n: real, lo: real, hi: real)
    requires n > 0.0 && n * lo <= s <= n * hi
    ensures lo <= s / n <= hi
    ensures s / n * n == s
  {
    assert s / n * n == s;
  }

  /** The rating band of an average: strictly above 0.3 is positive,
      strictly below -0.3 is negative, and the closed interval between,
      both thresholds included, is neutral. */
  function Classify(avg: real): (r: Rating)
    ensures r == Positive <==> avg > 0.3
    ensures r == Negative <==> avg < -0.3
    ensures r == Neutral <==> -0.3 <= avg <= 0.3
  {
    if avg > 0.3 then Positive else if avg < -0.3 then Negative else Neutral
  }

  /** Python's `int(x)` on a float: truncation toward zero. */
  function PyInt(x: real): (n: int)
    ensures x >= 0.0 ==> n as real <= x < n as real + 1.0
    ensures x <= 0.0 ==> n as real - 1.0 < x <= n as real
  {
    if x >= 0.0 then x.Floor else -((-x).Floor)
  }

  /** `int((avg + 1) * 50)`. */
  function Score(avg: real): int {
    PyInt((avg + 1.0) * 50.0)
  }

  /** For an average of at least -1 the conversion is the floor, and the
      score lies in [0, 100] when the average lies in [-1, 1]. */
  lemma ScoreRange(avg: real)
    requires -1.0 <= avg
    ensures Score(avg) == ((avg + 1.0) * 50.0).Floor
    ensures avg <= 1.0 ==> 0 <= Score(avg) <= 100
  {
  }

  /** The score never decreases as the average grows, and the extreme
      averages give the extreme scores. */
  lemma ScoreMonotone(a: real, b: real)
    requires a <= b
    ensures Score(a) <= Score(b)
    ensures Score(-1.0) == 0 && Score(1.0) == 100
  {
    var x, y := (a + 1.0) * 50.0, (b + 1.0) * 50.0;
    assert x <= y;
    if x < 0.0 && y >= 0.0 {
      assert PyInt(x) <= 0 <= PyInt(y);
    }
  }

  /** Band and score agree: a positive rating comes with a score of at
      least 65, a negative one with at most 34, a neutral one with 35 to 65. */
  lemma RatingMatchesScore(avg: real)
    requires -1.0 <= avg <= 1.0
    ensures Classify(avg) == Positive ==> 65 <= Score(avg)
    ensures Classify(avg) == Negative ==> Score(avg) <= 34
    ensures Classify(avg) == Neutral ==> 35 <= Score(avg) <= 65
  {
    ScoreRange(avg);
    var x := (avg + 1.0) * 50.0;
    match Classify(avg)
    case Positive => assert x > 65.0;
    case Negative => assert x < 35.0;
    case Neutral => assert 35.0 <= x <= 65.0;
  }

  // ---------------------------------------------------------------------
  // The whole aggregation

  /** What `get_news_sentiment` returns for a feed. */
  function Sentiment(feed: Feed): SentimentResult {
    match feed
    case FetchFailed => Failed
    case Parsed(items) =>
      match Collect(Take(items, 5))
      case None => Failed
      case Some(news) =>
        if news == [] then NoNews
        else
          var avg := Mean(Scores(news));
          Report(Classify(avg), Score(avg), news)
  }

  /** The loop of `get_news_sentiment` over `root.findall(...)[:5]`, with the
      rating assigned and then reassigned by the `if`/`elif` chain. */
  method GetNewsSentiment(feed: Feed) returns (result: SentimentResult)
    ensures result == Sentiment(feed)
  {
    if feed.FetchFailed? {
      return Failed;
    }
    var entries := Take(feed.items, 5);
    var newsItems: seq<NewsItem> := [];
    var i := 0;
    while i < |entries|
      invariant 0 <= i <= |entries|
      invariant |newsItems| == i
      invariant forall k :: 0 <= k < i ==> Complete(entries[k]) && newsItems[k] == ToNews(entries[k])
    {
      var item := entries[i];
      if item.title.None? || item.link.None? || item.pubDate.None? {
        CollectSpec(entries);
        return Failed;
      }
      newsItems := newsItems + [NewsItem(item.title.value, item.link.value, item.pubDate.value, item.score)];
      i := i + 1;
    }
    CollectSpec(entries);
    assert !exists k :: 0 <= k < |entries| && !Complete(entries[k]);
    assert Collect(entries).value == newsItems;
    if newsItems == [] {
      return NoNews;
    }
    var avgScore := Sum(Scores(newsItems)) / (|newsItems| as real);
    var rating := Neutral;
    if avgScore > 0.3 {
      rating := Positive;
    } else if avgScore < -0.3 {
      rating := Negative;
    }
    result := Report(rating, PyInt((avgScore + 1.0) * 50.0), newsItems);
  }

  /** Score bounds on every item of the feed (the compound score range). */
  predicate ScoresInRange(items: seq<FeedItem>) {
    forall i :: 0 <= i < |items| ==> -1.0 <= items[i].score <= 1.0
  }

  /** The three outcomes and when each happens: failure exactly when the
      fetch failed or one of the first five items lacks a child element; no
      news exactly when the feed parsed to an empty list; otherwise a report
      of between one and five items, one per leading feed item, in order. */
  lemma SentimentOutcomes(feed: Feed)
    ensures Sentiment(feed) == Failed <==>
      (feed.FetchFailed? || exists i :: 0 <= i < |feed.items| && i < 5 && !Complete(feed.items[i]))
    ensures Sentiment(feed) == NoNews <==> feed == Parsed([])
    ensures Sentiment(feed).Report? ==>
      && feed.Parsed?
      && 1 <= |Sentiment(feed).news| <= 5
      && |Sentiment(feed).news| == |Take(feed.items, 5)|
      && forall i :: 0 <= i < |Sentiment(feed).news| ==>
           Complete(feed.items[i]) && Sentiment(feed).news[i] == ToNews(feed.items[i])
  {
    if feed.Parsed? {
      var entries := Take(feed.items, 5);
      CollectSpec(entries);
      if exists i :: 0 <= i < |feed.items| && i < 5 && !Complete(feed.items[i]) {
        var i :| 0 <= i < |feed.items| && i < 5 && !Complete(feed.items[i]);
        assert !Complete(entries[i]);
      }
      if Collect(entries).None? {
        var i :| 0 <= i < |entries| && !Complete(entries[i]);
        assert !Complete(feed.items[i]);
      }
    }
  }

  /** Items after the fifth are never read: they change nothing, even when
      they are malformed. */
  lemma OnlyFirstFiveMatter(items: seq<FeedItem>, more: seq<FeedItem>)
    requires |items| == 5
    ensures Sentiment(Parsed(items + more)) == Sentiment(Parsed(items))
  {
    assert Take(items + more, 5) == items;
  }

  /** With compound scores in [-1, 1] a report's average lies in [-1, 1] and
      is the arithmetic mean of the kept scores, its score lies in [0, 100],
      and its rating and score agree. */
  lemma ReportBounds(feed: Feed)
    requires feed.Parsed? && ScoresInRange(feed.items)
    requires Sentiment(feed).Report?
    ensures var r := Sentiment(feed);
      && var avg := Mean(Scores(r.news));
      && -1.0 <= avg <= 1.0
      && avg * (|r.news| as real) == Sum(Scores(r.news))
      && r.rating == Classify(avg)
      && 0 <= r.score <= 100
      && (r.rating == Positive ==> 65 <= r.score)
      && (r.rating == Negative ==> r.score <= 34)
      && (r.rating == Neutral ==> 35 <= r.score <= 65)
  {
    SentimentOutcomes(feed);
    var r := Sentiment(feed);
    var xs := Scores(r.news);
    forall i | 0 <= i < |xs| ensures -1.0 <= xs[i] <= 1.0 {
      assert xs[i] == feed.items[i].score;
    }
    MeanBounds(xs, -1.0, 1.0);
    ScoreRange(Mean(xs));
    RatingMatchesScore(Mean(xs));
  }

  /** The caller tests `if sentiment:`: both `[]` and `None` are falsy, a
      record is truthy, so the page shows buzz exactly for a report. */
  predicate IsTruthy(r: SentimentResult) {
    r.Report?
  }

  /** The page falls back to "no buzz" both after a failure and when there
      was no news; for a report, the progress value `score / 100` lies in
      [0, 1]. */
  lemma CallerView(feed: Feed)
    requires feed.Parsed? ==> ScoresInRange(feed.items)
    ensures !IsTruthy(Failed) && !IsTruthy(NoNews)
    ensures IsTruthy(Sentiment(feed)) ==>
      0.0 <= (Sentiment(feed).score as real) / 100.0 <= 1.0
  {
    if Sentiment(feed).Report? {
      ReportBounds(feed);
    }
  }
}
