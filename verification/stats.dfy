/** The four summary cards (app/components/StatsOverview.tsx): tweet, like
    and retweet totals, and the class of the average sentiment score. */
module Stats {
  import opened Types
  import opened Strings
  import Utils
  import Decimal
  import Sentiment

  /** `tweets.reduce((sum, t) => sum + t.like_count, 0)`. */
  function TotalLikes(ts: seq<Tweet>): nat
    decreases |ts|
  {
    if |ts| == 0 then 0 else TotalLikes(ts[..|ts| - 1]) + ts[|ts| - 1].likes
  }

  function TotalRetweets(ts: seq<Tweet>): nat
    decreases |ts|
  {
    if |ts| == 0 then 0 else TotalRetweets(ts[..|ts| - 1]) + ts[|ts| - 1].retweets
  }

  /** Computed by the component but shown on no card. */
  function TotalReplies(ts: seq<Tweet>): nat
    decreases |ts|
  {
    if |ts| == 0 then 0 else TotalReplies(ts[..|ts| - 1]) + ts[|ts| - 1].replies
  }

  /** The sum of the scores, in thousandths. */
  function TotalScore(ts: seq<Tweet>): int
    decreases |ts|
  {
    if |ts| == 0 then 0 else TotalScore(ts[..|ts| - 1]) + ts[|ts| - 1].sentimentScore
  }

  /** The sum of the engagement of every tweet. */
  function TotalEngagement(ts: seq<Tweet>): nat
    decreases |ts|
  {
    if |ts| == 0 then 0 else TotalEngagement(ts[..|ts| - 1]) + Engagement(ts[|ts| - 1])
  }

  /** The three interaction totals add up to the total engagement. */
  lemma {:induction false} TotalsMakeEngagement(ts: seq<Tweet>)
    ensures TotalLikes(ts) + TotalRetweets(ts) + TotalReplies(ts) == TotalEngagement(ts)
    decreases |ts|
  {
    if |ts| > 0 {
      TotalsMakeEngagement(ts[..|ts| - 1]);
    }
  }

  /** The totals of two lists of tweets together are the sums of their
      totals. */
  lemma {:induction false} TotalsAppend(a: seq<Tweet>, b: seq<Tweet>)
    ensures TotalLikes(a + b) == TotalLikes(a) + TotalLikes(b)
    ensures TotalRetweets(a + b) == TotalRetweets(a) + TotalRetweets(b)
    ensures TotalReplies(a + b) == TotalReplies(a) + TotalReplies(b)
    ensures TotalScore(a + b) == TotalScore(a) + TotalScore(b)
    decreases |b|
  {
    if |b| == 0 {
      assert a + b == a;
    } else {
      assert (a + b)[..|a + b| - 1] == a + b[..|b| - 1];
      TotalsAppend(a, b[..|b| - 1]);
    }
  }

  /** `avgSentiment`: the mean score as a number between 0 and 1 (scores are
      held in thousandths), or 0 when there are no tweets. */
  function AverageScore(ts: seq<Tweet>): real {
    if |ts| > 0 then TotalScore(ts) as real / (1000 * |ts|) as real else 0.0
  }

  /** The average times the number of tweets is the score total, and with no
      tweets the average is 0. */
  lemma AverageIsMean(ts: seq<Tweet>)
    ensures |ts| == 0 ==> AverageScore(ts) == 0.0
    ensures |ts| > 0 ==> AverageScore(ts) * (1000 * |ts|) as real == TotalScore(ts) as real
  {
  }

  /** `sentimentLabel`: above 0.6 positive, below 0.4 negative, and neutral
      on the closed band between, both ends included. */
  function AverageLabel(avg: real): (l: Label)
    ensures l == Positive <==> avg > 0.6
    ensures l == Negative <==> avg < 0.4
    ensures l == Neutral <==> 0.4 <= avg <= 0.6
  {
    if avg > 0.6 then Positive else if avg < 0.4 then Negative else Neutral
  }

  /** The card applies the same thresholds as the analyser's verdict: an
      average equal to a score of whole tenths gets the label the analyser
      gives that score. */
  lemma SameThresholds(tenths: int)
    ensures AverageLabel(tenths as real / 10.0) == Sentiment.LabelFor(tenths)
  {
  }

  /** `sentimentColor`, written out separately in the component. */
  function AverageColor(avg: real): string {
    if avg > 0.6 then Utils.Green else if avg < 0.4 then Utils.Red else Utils.Yellow
  }

  /** The class of the average in whole numbers: positive when the score
      total exceeds 600 thousandths per tweet, negative when it is below 400
      per tweet, and negative for no tweets at all (the average is then 0). */
  lemma AverageLabelByTotals(ts: seq<Tweet>)
    ensures var n, s := |ts|, TotalScore(ts);
            AverageLabel(AverageScore(ts)) ==
              if n == 0 then Negative
              else if s > 600 * n then Positive
              else if s < 400 * n then Negative
              else Neutral
  {
    var n := |ts|;
    if n > 0 {
      AverageIsMean(ts);
      ThresholdsInThousandths(AverageScore(ts), TotalScore(ts), n);
    }
  }

  /** For a mean `avg` of `n > 0` scores totalling `s` thousandths, the two
      thresholds read as whole-number comparisons. */
  lemma ThresholdsInThousandths(avg: real, s: int, n: nat)
    requires n > 0 && avg * (1000 * n) as real == s as real
    ensures avg > 0.6 <==> s > 600 * n
    ensures avg < 0.4 <==> s < 400 * n
  {
    var d := (1000 * n) as real;
    ThousandthsScale(n);
    AboveThreshold(avg, s as real, d, 0.6);
    BelowThreshold(avg, s as real, d, 0.4);
  }

  /** With `x * d == p` for a positive `d`, `x` is above `c` exactly when
      `p` is above `c * d`. */
  lemma AboveThreshold(x: real, p: real, d: real, c: real)
    requires d > 0.0 && x * d == p
    ensures x > c <==> p > c * d
  {
    ScaleCompare(x, c, d);
  }

  /** With `x * d == p` for a positive `d`, `x` is below `c` exactly when
      `p` is below `c * d`. */
  lemma BelowThreshold(x: real, p: real, d: real, c: real)
    requires d > 0.0 && x * d == p
    ensures x < c <==> p < c * d
  {
    ScaleCompare(c, x, d);
  }

  /** The thresholds 0.6 and 0.4 of `n` thousand are 600 and 400 times `n`. */
  lemma ThousandthsScale(n: nat)
    ensures 0.6 * (1000 * n) as real == (600 * n) as real
    ensures 0.4 * (1000 * n) as real == (400 * n) as real
  {
    assert (1000 * n) as real == 1000.0 * n as real;
  }

  /** Multiplying by a positive number keeps strict order, both ways. */
  lemma ScaleCompare(x: real, y: real, d: real)
    requires d > 0.0
    ensures x > y <==> x * d > y * d
  {
    if x > y {
      assert (x - y) * d > 0.0;
    } else {
      assert (y - x) * d >= 0.0;
    }
  }

  /** The card's colour is the colour the rest of the dashboard gives the
      label it shows. */
  lemma ColourMatchesLabel(avg: real)
    ensures AverageColor(avg) == Utils.SentimentColor(LabelName(AverageLabel(avg)))
  {
  }

  /** What a card shows: a count, written by `formatNumber`, or a text. */
  datatype Shown = Count(n: nat) | Text(text: string)

  /** The text on the card. */
  function ValueText(v: Shown): string {
    match v
    case Count(n) => Utils.FormatNumber(n)
    case Text(t) => t
  }

  /** One summary card: its caption, what it shows, and its colour. */
  datatype Stat = Stat(caption: string, value: Shown, color: string)

  const Blue := "text-blue-400"

  const TweetsCaption := "Total Tweets"
  const LikesCaption := "Total Likes"
  const RetweetsCaption := "Total Retweets"
  const AverageCaption := "Avg Sentiment"

  /** `stats`: the tweet count, the like total and the retweet total, then
      the average's label in its colour. */
  function StatsCards(ts: seq<Tweet>): (cards: seq<Stat>)
    ensures |cards| == 4
    ensures cards[0].caption == TweetsCaption && cards[0].value == Count(|ts|)
    ensures cards[1].caption == LikesCaption && cards[1].value == Count(TotalLikes(ts))
    ensures cards[2].caption == RetweetsCaption && cards[2].value == Count(TotalRetweets(ts))
    ensures cards[3].caption == AverageCaption
    ensures cards[3].value == Text(Capitalize(LabelName(AverageLabel(AverageScore(ts)))))
    ensures cards[0].color == Blue && cards[1].color == Utils.Red && cards[2].color == Utils.Green
    ensures cards[3].color == Utils.SentimentColor(LabelName(AverageLabel(AverageScore(ts))))
  {
    var avg := AverageScore(ts);
    ColourMatchesLabel(avg);
    [ Stat(TweetsCaption, Count(|ts|), Blue),
      Stat(LikesCaption, Count(TotalLikes(ts)), Utils.Red),
      Stat(RetweetsCaption, Count(TotalRetweets(ts)), Utils.Green),
      Stat(AverageCaption, Text(DisplayName(AverageLabel(avg))), AverageColor(avg)) ]
  }

  /** The first three cards show their totals through `formatNumber`; below
      a thousand the text reads back as the exact total. */
  lemma CardsShowTotals(ts: seq<Tweet>)
    ensures var cards := StatsCards(ts);
            && (|ts| < 1000 ==> Decimal.ParseInt(ValueText(cards[0].value)) == Some(|ts|))
            && (TotalLikes(ts) < 1000 ==> Decimal.ParseInt(ValueText(cards[1].value)) == Some(TotalLikes(ts)))
            && (TotalRetweets(ts) < 1000 ==> Decimal.ParseInt(ValueText(cards[2].value)) == Some(TotalRetweets(ts)))
  {
  }

  /** The average card is coloured as the rest of the dashboard colours the
      label it shows. */
  lemma AverageCardColour(ts: seq<Tweet>)
    ensures StatsCards(ts)[3].color == Utils.SentimentColor(LabelName(AverageLabel(AverageScore(ts))))
  {
    ColourMatchesLabel(AverageScore(ts));
  }
}
