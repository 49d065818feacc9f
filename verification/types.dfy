/** The records the dashboard works on: a tweet, the filter options chosen in
    the filter panel, and one datum of a chart series (lib/types.ts). */
module Types {
  import opened Strings

  /** A value that may be missing: a timestamp that does not parse, a key with
      no entry. */
  datatype Option<+T> = None | Some(value: T)

  /** The three sentiment classes a tweet carries. */
  datatype Label = Positive | Negative | Neutral

  /** One tweet. Timestamps stay the raw text the record holds; the filter
      parses them through a parser it is given. The interaction counts are
      non-negative. `sentimentScore` is the score in thousandths, so 0.734 is
      734; `sentimentLabel` is stored alongside it and is not re-derived. */
  datatype Tweet = Tweet(
    id: string,
    text: string,
    authorId: string,
    authorName: string,
    authorUsername: string,
    createdAt: string,
    likes: nat,
    retweets: nat,
    replies: nat,
    sentimentScore: int,
    sentimentLabel: Label)

  /** Calendar-day bounds as the date inputs deliver them (text). */
  datatype DateRange = DateRange(start: string, end: string)

  /** The sentiment selector: everything, or one label. */
  datatype Selector = All | Only(wanted: Label)

  /** Inclusive engagement bounds; nothing forces `min <= max`. */
  datatype Range = Range(min: int, max: int)

  datatype FilterOptions = FilterOptions(
    dateRange: DateRange,
    sentiment: Selector,
    engagementRange: Range)

  /** One point of a chart series. `date` is only set by the daily volume
      series, where it repeats the day text. */
  datatype ChartDatum = ChartDatum(name: string, value: nat, date: Option<string>)

  /** A date parser: `new Date(text)` read as an instant, None for an
      invalid date. */
  type Parser = string -> Option<int>

  /** Combined interactions of a tweet: likes + retweets + replies. */
  function Engagement(t: Tweet): nat {
    t.likes + t.retweets + t.replies
  }

  /** The label as the record spells it. */
  function LabelName(l: Label): string {
    match l
    case Positive => "positive"
    case Negative => "negative"
    case Neutral => "neutral"
  }

  /** The label as the interface writes it, in the pie chart's point names,
      on the average card and on the filter buttons: its first letter
      upper-cased. */
  function DisplayName(l: Label): string {
    Capitalize(LabelName(l))
  }

  /** The three display names. */
  lemma DisplayNames()
    ensures DisplayName(Positive) == "Positive"
    ensures DisplayName(Negative) == "Negative"
    ensures DisplayName(Neutral) == "Neutral"
  {
  }
}
