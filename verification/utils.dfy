/** The helpers of lib/utils.ts: number display, the tweet filter, and the
    colour and emoji chosen for a sentiment label. The CSV text built by the
    export is in module Csv. */
module Utils {
  import opened Types
  import opened Decimal

  // ---------------------------------------------------------------------
  // formatNumber

  /** `text` is a one-decimal rendering of a count of tenths `q` such that
      `n` rounds to `q` tenths of `step * 10`, ties rounding up. */
  predicate ShowsNearestTenth(text: string, n: int, step: nat) {
    match ParseFixed(text, 1)
    case None => false
    case Some(q) => step * q - step / 2 <= n < step * q + step / 2
  }

  /** `formatNumber(n)`: plain decimal below 1000, thousands with one decimal
      and a `K`, millions with one decimal and an `M`. `toFixed(1)` is taken
      on the exact quotient with ties rounding up. */
  function FormatNumber(n: int): (r: string)
    ensures n < 1000 ==> ParseInt(r) == Some(n)
    ensures 1000 <= n < 1000000 ==>
              |r| >= 1 && r[|r| - 1] == 'K' && ShowsNearestTenth(r[..|r| - 1], n, 100)
    ensures n >= 1000000 ==>
              |r| >= 1 && r[|r| - 1] == 'M' && ShowsNearestTenth(r[..|r| - 1], n, 100000)
  {
    if n >= 1000000 then
      var q := (n + 50000) / 100000;
      FixedTextParses(q, 1);
      var r := FixedText(q, 1) + "M";
      assert r[..|r| - 1] == FixedText(q, 1);
      r
    else if n >= 1000 then
      var q := (n + 50) / 100;
      FixedTextParses(q, 1);
      var r := FixedText(q, 1) + "K";
      assert r[..|r| - 1] == FixedText(q, 1);
      r
    else
      ParseIntToString(n);
      IntToString(n)
  }

  /** Just below a million the thousands branch still applies, and the
      rounding carries into a fourth whole digit: 999999 shows as "1000.0K",
      not "1.0M". */
  lemma FormatNumberBelowMillion()
    ensures FormatNumber(999999) == "1000.0K"
  {
    assert (999999 + 50) / 100 == 10000;
    TenThousandTenths();
  }

  /** 10000 tenths written with one decimal. */
  lemma TenThousandTenths()
    ensures FixedText(10000, 1) == "1000.0"
  {
    assert Pow10(1) == 10;
    assert 10000 / 10 == 1000 && 10000 % 10 == 0;
    assert NatToString(1) == "1";
    assert NatToString(10) == NatToString(1) + "0";
    assert NatToString(100) == NatToString(10) + "0";
    assert NatToString(1000) == NatToString(100) + "0";
    assert FractionDigits(0, 1) == FractionDigits(0, 0) + "0";
    assert UnsignedFixedText(10000, 1) == NatToString(1000) + "." + FractionDigits(0, 1);
  }

  // ---------------------------------------------------------------------
  // filterTweets

  /** `a < b` on two Date values: false when either is an invalid date. */
  predicate Before(a: Option<int>, b: Option<int>) {
    a.Some? && b.Some? && a.value < b.value
  }

  /** The date test: the tweet is dropped when it is before the start or
      after the end. */
  predicate PassesDate(t: Tweet, range: DateRange, parse: Parser) {
    var at := parse(t.createdAt);
    !(Before(at, parse(range.start)) || Before(parse(range.end), at))
  }

  /** The sentiment test: dropped when a label is selected and differs. */
  predicate PassesSentiment(t: Tweet, selector: Selector) {
    !(selector.Only? && t.sentimentLabel != selector.wanted)
  }

  /** The engagement test: dropped when below the minimum or above the
      maximum. */
  predicate PassesEngagement(t: Tweet, range: Range) {
    var e := Engagement(t);
    !(e < range.min || e > range.max)
  }

  /** A tweet is kept when all three tests pass. */
  predicate Matches(t: Tweet, f: FilterOptions, parse: Parser) {
    && PassesDate(t, f.dateRange, parse)
    && PassesSentiment(t, f.sentiment)
    && PassesEngagement(t, f.engagementRange)
  }

  /** `a` is `b` with some elements removed and the rest in order. */
  predicate IsSubsequence<T(==)>(a: seq<T>, b: seq<T>)
    decreases |b|
  {
    || |a| == 0
    || (|b| > 0 && ((a[0] == b[0] && IsSubsequence(a[1..], b[1..])) || IsSubsequence(a, b[1..])))
  }

  /** `filterTweets(tweets, filters)`: the tweets that pass all three tests,
      in their original order, each as often as it occurs in the input. */
  function FilterTweets(ts: seq<Tweet>, f: FilterOptions, parse: Parser): (r: seq<Tweet>)
    ensures IsSubsequence(r, ts)
    ensures forall t :: t in r ==> Matches(t, f, parse)
    decreases |ts|
  {
    if |ts| == 0 then []
    else
      if Matches(ts[0], f, parse) then [ts[0]] + FilterTweets(ts[1..], f, parse)
      else FilterTweets(ts[1..], f, parse)
  }

  /** Each tweet occurs in the result as often as in the input if it passes
      all three tests, and not at all otherwise. */
  lemma {:induction false} FilterCounts(ts: seq<Tweet>, f: FilterOptions, parse: Parser)
    ensures forall t :: multiset(FilterTweets(ts, f, parse))[t]
                          == if Matches(t, f, parse) then multiset(ts)[t] else 0
    decreases |ts|
  {
    if |ts| > 0 {
      FilterCounts(ts[1..], f, parse);
      assert ts == [ts[0]] + ts[1..];
    }
  }

  /** A tweet of the input is in the result exactly when it passes all three
      tests. */
  lemma FilterKeepsIff(ts: seq<Tweet>, f: FilterOptions, parse: Parser, t: Tweet)
    requires t in ts
    ensures t in FilterTweets(ts, f, parse) <==>
              PassesDate(t, f.dateRange, parse) && PassesSentiment(t, f.sentiment)
              && PassesEngagement(t, f.engagementRange)
  {
    var r := FilterTweets(ts, f, parse);
    FilterCounts(ts, f, parse);
    assert t in r <==> multiset(r)[t] > 0;
    assert multiset(ts)[t] > 0;
  }

  /** Filtering a concatenation filters each part. */
  lemma {:induction false} FilterAppend(a: seq<Tweet>, b: seq<Tweet>, f: FilterOptions, parse: Parser)
    ensures FilterTweets(a + b, f, parse) == FilterTweets(a, f, parse) + FilterTweets(b, f, parse)
    decreases |a|
  {
    if |a| > 0 {
      assert (a + b)[0] == a[0];
      assert (a + b)[1..] == a[1..] + b;
      FilterAppend(a[1..], b, f, parse);
    } else {
      assert a + b == b;
    }
  }

  /** Filtering twice with the same options is filtering once. */
  lemma {:induction false} FilterIdempotent(ts: seq<Tweet>, f: FilterOptions, parse: Parser)
    ensures FilterTweets(FilterTweets(ts, f, parse), f, parse) == FilterTweets(ts, f, parse)
    decreases |ts|
  {
    if |ts| > 0 {
      FilterIdempotent(ts[1..], f, parse);
      var rest := FilterTweets(ts[1..], f, parse);
      if Matches(ts[0], f, parse) {
        var r := [ts[0]] + rest;
        assert r[0] == ts[0] && r[1..] == rest;
      }
    }
  }

  /** An inverted engagement range keeps nothing, and raises no error. */
  lemma {:induction false} InvertedRangeKeepsNothing(ts: seq<Tweet>, f: FilterOptions, parse: Parser)
    requires f.engagementRange.min > f.engagementRange.max
    ensures FilterTweets(ts, f, parse) == []
    decreases |ts|
  {
    if |ts| > 0 {
      InvertedRangeKeepsNothing(ts[1..], f, parse);
    }
  }

  /** The date test in positive form: a tweet whose date does not parse is
      never excluded, and a bound that does not parse excludes nothing;
      otherwise both bounds are inclusive. */
  lemma PassesDateIff(t: Tweet, range: DateRange, parse: Parser)
    ensures var at, s, e := parse(t.createdAt), parse(range.start), parse(range.end);
            PassesDate(t, range, parse) <==>
              || at.None?
              || ((s.None? || s.value <= at.value) && (e.None? || at.value <= e.value))
  {
  }

  // ---------------------------------------------------------------------
  // calculateEngagementRate

  /** `calculateEngagementRate(tweet)`: with no follower count available the
      "rate" is the raw interaction count. */
  function EngagementRate(t: Tweet): (r: nat)
    ensures r >= t.likes && r >= t.retweets && r >= t.replies
    ensures r == 0 <==> t.likes == 0 && t.retweets == 0 && t.replies == 0
    ensures r == Engagement(t)
  {
    t.likes + t.retweets + t.replies
  }

  /** The engagement test of the filter bounds exactly this rate. */
  lemma EngagementTestUsesRate(t: Tweet, range: Range)
    ensures PassesEngagement(t, range) <==> range.min <= EngagementRate(t) <= range.max
  {
  }

  // ---------------------------------------------------------------------
  // getSentimentColor, getSentimentEmoji

  const Green := "text-green-400"
  const Red := "text-red-400"
  const Yellow := "text-yellow-400"

  /** `getSentimentColor(s)`: any text other than the two named labels is
      shown in yellow. */
  function SentimentColor(s: string): (c: string)
    ensures c == Green <==> s == LabelName(Positive)
    ensures c == Red <==> s == LabelName(Negative)
    ensures c == Yellow <==> s != LabelName(Positive) && s != LabelName(Negative)
  {
    if s == "positive" then Green
    else if s == "negative" then Red
    else Yellow
  }

  /** `getSentimentEmoji(s)`, with the same fallback as the colour. */
  function SentimentEmoji(s: string): (e: string)
    ensures e == "\U{1F60A}" <==> s == LabelName(Positive)
    ensures e == "\U{1F61E}" <==> s == LabelName(Negative)
    ensures e == "\U{1F610}" <==> s != LabelName(Positive) && s != LabelName(Negative)
  {
    if s == "positive" then "\U{1F60A}"
    else if s == "negative" then "\U{1F61E}"
    else "\U{1F610}"
  }

  /** Colour and emoji classify every text the same way, and the three labels
      get three different colours. */
  lemma ColourAndEmojiAgree(s: string)
    ensures SentimentColor(s) == Green <==> SentimentEmoji(s) == "\U{1F60A}"
    ensures SentimentColor(s) == Red <==> SentimentEmoji(s) == "\U{1F61E}"
    ensures SentimentColor(s) == Yellow <==> SentimentEmoji(s) == "\U{1F610}"
    ensures SentimentColor(LabelName(Positive)) == Green
    ensures SentimentColor(LabelName(Negative)) == Red
    ensures SentimentColor(LabelName(Neutral)) == Yellow
  {
  }
}
