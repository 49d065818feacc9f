# Tweet analytics dashboard — a Dafny model of its data logic

The dashboard shows a list of tweet records in four ways:
- It filters them by a date range, a sentiment selector and an engagement range.
- It exports them as CSV text.
- It charts them as a sentiment pie, a daily-volume line or an engagement histogram.
- It sums them up in four summary cards.

A keyword scorer assigns placeholder sentiment to tweet texts. This project models those pure transformations over immutable records and proves what they promise.

Modules, one per part of the program:

- `Types`: the tweet record, the filter options and a chart datum (`lib/types.ts`), and the capitalised name of a label that the pie chart, the average card and the sentiment buttons all show.
- `Strings`: JavaScript's `split`, `join`, `includes`, `toLowerCase` and first-letter capitalisation.
- `Decimal`: `toString()` of an integer, `toFixed(p)` of a fixed-point value, and `parseInt` with no radix. This covers leading white space, a sign and a `0x` prefix, reads the longest digit run, and gives NaN as `None`.
- `Utils`: `filterTweets`, `formatNumber`, `calculateEngagementRate`, and the colour and emoji of a label.
- `Csv`: the text that `exportToCSV` builds. It also has a quoted-field reader of one line, used to state what an exported row reads back as.
- `Counting`: the `reduce`-into-an-object then `Object.entries` idiom. It gives one entry per distinct key, in first-occurrence order.
- `Charts`: `generateChartData` for the three variants, `getChartTitle`, and the no-data check.
- `Sentiment`: `analyzeSentiment`, with the score held in integer tenths. The 0.5 baseline is 5 and each keyword hit is ±1.
- `Stats`: the totals, the average sentiment with its label and colour, and the four summary cards.
- `FilterControls`: the three change handlers of the filter panel, the `parseInt(...) || default` fallbacks of the two number boxes, and the four sentiment buttons.

Representation choices:

- `sentimentScore` is an integer number of thousandths, so 0.734 is 734. The program holds arbitrary doubles; the rounding of the export is listed under "Left out".
- Timestamps stay text. The filter reads them through a `parse: string -> Option<int>` parameter that stands for `new Date(text)`; `None` is an invalid date. Comparisons with an invalid date are false, so such a date never excludes a tweet.
  - With real dates, a date-only bound such as `2024-01-31` parses to midnight UTC. The end day is therefore effectively exclusive: tweets later on that day fail `tweetDate > endDate`.
  - The daily series takes the day text of a timestamp (`toLocaleDateString`) and the time of a day text (`new Date(day).getTime()`) as parameters.
- The `variant` prop is a three-valued datatype. The program sends every value other than `pie` and `line` to the histogram; here that case is `Bar`.
- Counts are natural numbers, and engagement bounds are integers (a typed number may be negative).

A behaviour worth knowing about the export: only the text column is quoted. A `,` in an author's name therefore splits that column in two when the line is read back. Every later column moves one place to the right, and the label ends up in an eleventh column (`Csv.CommaInAuthorNameShiftsColumns`).

## Model

| member | source | states |
|---|---|---|
| Utils.FilterTweets | lib/utils.ts:23-47 | the result is a subsequence of the input, and every tweet in it passes all three tests |
| Utils.FilterCounts | lib/utils.ts:23-47 | each tweet occurs in the result as often as in the input if it passes all three tests, and not at all otherwise |
| Utils.FilterKeepsIff | lib/utils.ts:26-45 | a tweet of the input is kept if and only if the date, sentiment and engagement tests all pass |
| Utils.FilterIdempotent | lib/utils.ts:23-47 | filtering the result again with the same options changes nothing |
| Utils.FilterAppend | lib/utils.ts:23-24 | filtering a concatenation is concatenating the filtered parts: each tweet is judged alone and order is kept |
| Utils.PassesDateIff | lib/utils.ts:26-32 | a tweet whose date does not parse always passes; a bound that does not parse excludes nothing; otherwise both bounds are inclusive |
| Utils.InvertedRangeKeepsNothing | lib/utils.ts:40-42 | with min > max no tweet is kept, and the result is simply empty |
| Utils.EngagementRate | lib/utils.ts:103-107 | the rate is the engagement the filter bounds, likes + retweets + replies; it is at least each of the three, and zero exactly when all three are zero |
| Utils.EngagementTestUsesRate | lib/utils.ts:40-41 | the filter's engagement test is min <= likes + retweets + replies <= max |
| Utils.FormatNumber | lib/utils.ts:3-11 | below 1000 the text reads back as the number; from 1000 below a million it ends in `K` and its one-decimal prefix is the nearest tenth of thousands; from a million it ends in `M`, the nearest tenth of millions |
| Utils.FormatNumberBelowMillion | lib/utils.ts:7-8 | 999999 is shown as "1000.0K": the thousands branch still applies and the rounding carries into a fourth digit |
| Utils.SentimentColor | lib/utils.ts:109-118 | green exactly for "positive", red exactly for "negative", yellow for every other text |
| Utils.SentimentEmoji | lib/utils.ts:120-129 | the smile exactly for "positive", the frown exactly for "negative", the neutral face for every other text |
| Utils.ColourAndEmojiAgree | lib/utils.ts:109-129 | colour and emoji classify every text alike (green with the smile, red with the frown, yellow with the neutral face for anything else), and the three labels get three different colours |
| Decimal.ParseIntToString | lib/utils.ts:10 | `parseInt` of the decimal text of any integer gives that integer back |
| Decimal.FixedTextParses | lib/utils.ts:74 | the three-decimal rendering of a score of whole thousandths reads back as that exact score |
| Csv.QuoteRoundTrip | lib/utils.ts:67 | stripping the outer quotes of the text column and collapsing each `""` gives the tweet text back |
| Csv.EscapeKeepsOtherChars | lib/utils.ts:67 | escaping changes only quotes: any other character occurs in the escaped text exactly when it occurs in the text |
| Csv.Document | lib/utils.ts:63-77 | no tweets give the header line alone |
| Csv.HeaderRoundTrip | lib/utils.ts:50-64 | the header line splits and reads back as exactly the ten column names |
| Csv.RowRoundTrip | lib/utils.ts:65-76 | a tweet's line reads back as its ten column values in header order, including a text with quotes or commas, when the unquoted columns hold no `,` and start with no `"` |
| Csv.DocumentLines | lib/utils.ts:63-77 | split at line breaks, the export is the header line, then exactly one line per tweet in input order |
| Csv.CommaInAuthorNameShiftsColumns | lib/utils.ts:65-76 | a `,` in the author name makes the line read back as eleven values: the name as two, the later columns shifted right, the label in an eleventh column |
| Counting.Bump | app/components/ChartDisplay.tsx:17 | bumping a present key raises its count by one in place; an absent key is appended with count one; keys stay distinct and the total grows by one |
| Counting.Tally | app/components/ChartDisplay.tsx:16-19 | one entry per distinct value, counting exactly its occurrences; keys distinct; counts sum to the number of values |
| Counting.TallyFirstOccurrenceOrder | app/components/ChartDisplay.tsx:16-21 | the entries come in the order in which their keys first occur |
| Charts.PieData | app/components/ChartDisplay.tsx:14-24 | the values add up to the number of tweets, and the pie is empty exactly when there are no tweets |
| Charts.PieDataCounts | app/components/ChartDisplay.tsx:16-24 | each point names a label that occurs, by its capitalised name, and its value is the number of tweets with that label |
| Charts.PieDataDistinct | app/components/ChartDisplay.tsx:21-24 | at most three points, no label named twice |
| Charts.PieDataPresence | app/components/ChartDisplay.tsx:16-24 | a label has a point if and only if some tweet carries it; absent labels are left out, not shown as zero |
| Charts.PieOrder | app/components/ChartDisplay.tsx:17-21 | labels appear in the order their first tweet does |
| Types.DisplayNames | app/components/ChartDisplay.tsx:22 | the point names are "Positive", "Negative" and "Neutral" |
| Charts.SortByTime | app/components/ChartDisplay.tsx:34-35 | the sort is a permutation of the day entries, keeps the total, and leaves them in ascending order of time |
| Charts.LineData | app/components/ChartDisplay.tsx:26-40 | the values add up to the number of tweets, and the series is empty exactly when there are no tweets |
| Charts.LineDataCounts | app/components/ChartDisplay.tsx:28-40 | each point is a day some tweet falls on, its value counts that day's tweets, and its date repeats its name |
| Charts.LineDataOrdered | app/components/ChartDisplay.tsx:34-40 | no day appears twice and the days ascend by time |
| Charts.LineDataPresence | app/components/ChartDisplay.tsx:28-40 | a day has a point if and only if some tweet falls on it |
| Charts.Histogram | app/components/ChartDisplay.tsx:42-58 | always five points, named "0-10", "11-50", "51-100", "101-500", "500+" in that order, with no date |
| Charts.BucketsPartition | app/components/ChartDisplay.tsx:44-50 | every engagement count lies in exactly one bucket |
| Charts.BucketEdges | app/components/ChartDisplay.tsx:45-49 | 10 and 11, 50 and 51, 100 and 101, 500 and 501 fall on either side of a bucket edge |
| Charts.HistogramTotal | app/components/ChartDisplay.tsx:52-58 | the five values add up to the number of tweets |
| Charts.HistogramStep | app/components/ChartDisplay.tsx:52-58 | one more tweet raises the value of its own bucket by one and of no other |
| Charts.GenerateChartData | app/components/ChartDisplay.tsx:12-59 | every variant's values add up to the number of tweets; the series is empty exactly for the pie or line chart of no tweets |
| Charts.NoDataMessage | app/components/ChartDisplay.tsx:160-165 | the no-data message shows exactly for the pie or line chart of no tweets; the bar chart always has five points |
| Charts.ChartTitles | app/components/ChartDisplay.tsx:146-155 | the pie chart is titled "Sentiment Distribution", the line chart "Tweet Volume Over Time", and every other variant falls through to "Engagement Distribution" |
| Charts.TitlesDiffer | app/components/ChartDisplay.tsx:146-155 | the three variants have three different titles |
| Sentiment.AnalyzeSentiment | lib/mockData.ts:56-78 | the loop's score is the baseline plus net hits, clamped once; it lies in [0, 1]; positive if and only if above 0.6, negative if and only if below 0.4, neutral otherwise |
| Sentiment.ScoreTenths | lib/mockData.ts:62-73 | the score lies in [0, 1], is the baseline plus the net hits when that is in range, and is 0 or 1 beyond it |
| Sentiment.NetHitsAdditive | lib/mockData.ts:61-71 | words score independently: the net hits of two texts joined by a space add up |
| Sentiment.OneWordStep | lib/mockData.ts:64-71 | a single word steps up one for a positive keyword, down one for a negative one, and not at all when it has both |
| Sentiment.ClampOnceAtEnd | lib/mockData.ts:64-73 | the clamp applies to the whole text's total, so a text that would clamp halfway can return to the baseline |
| Sentiment.CaseInsensitive | lib/mockData.ts:61 | lower-casing the text first changes nothing |
| Sentiment.SubstringHits | lib/mockData.ts:65 | keywords match inside words: "greatest" hits "great" |
| Sentiment.NoHitsIsBaseline | lib/mockData.ts:62-75 | a text in which no word hits a keyword scores 0.5 and is neutral |
| Stats.TotalsMakeEngagement | app/components/StatsOverview.tsx:13-15 | the like, retweet and reply totals add up to the total engagement |
| Stats.TotalsAppend | app/components/StatsOverview.tsx:13-18 | every total of two lists together is the sum of their totals |
| Stats.AverageIsMean | app/components/StatsOverview.tsx:17-19 | the average times the number of tweets is the score total, and it is 0 with no tweets |
| Stats.AverageLabelByTotals | app/components/StatsOverview.tsx:17-21 | the label is positive when the score total exceeds 0.6 per tweet, negative below 0.4 per tweet or with no tweets, neutral otherwise |
| Stats.ColourMatchesLabel | app/components/StatsOverview.tsx:21-22 | the colour written out in the component is the dashboard's colour for the label it shows |
| Stats.AverageLabel | app/components/StatsOverview.tsx:21 | positive exactly above 0.6, negative exactly below 0.4, neutral on the closed band from 0.4 to 0.6 |
| Stats.SameThresholds | app/components/StatsOverview.tsx:21 | the card's thresholds are the analyser's: an average equal to a score of whole tenths gets the analyser's label for that score |
| Stats.StatsCards | app/components/StatsOverview.tsx:24-49 | four cards in fixed order: tweet count, like total, retweet total, and the average's label with its first letter upper-cased; coloured blue, red, green, then the dashboard's colour for that label |
| Stats.CardsShowTotals | app/components/StatsOverview.tsx:27-39 | below a thousand, each of the first three cards reads back as its exact total |
| Stats.AverageCardColour | app/components/StatsOverview.tsx:43-48 | the fourth card has the colour of the label it shows |
| FilterControls.SetDate | app/components/FilterSlider.tsx:15-23 | only the chosen date bound changes; the other bound, the sentiment and the engagement range are kept |
| FilterControls.SetSentiment | app/components/FilterSlider.tsx:25-30 | only the sentiment changes |
| FilterControls.SetEngagement | app/components/FilterSlider.tsx:32-40 | only the chosen engagement bound changes |
| FilterControls.UpdatesCommute | app/components/FilterSlider.tsx:15-40 | changes to different controls commute, the two date bounds and the two engagement bounds included; a later change to the same date bound, sentiment or engagement bound overrides an earlier one |
| FilterControls.SettingCurrentValueIsNoChange | app/components/FilterSlider.tsx:15-40 | setting a control to its current value leaves the options equal |
| FilterControls.NumberOr | app/components/FilterSlider.tsx:113-124 | the fallback unless the text parses to a non-zero number, which is then used |
| FilterControls.MinInput | app/components/FilterSlider.tsx:113 | the number `parseInt` reads from the text, or 0 when it reads none |
| FilterControls.MaxInput | app/components/FilterSlider.tsx:124 | the number `parseInt` reads from the text unless it is 0; 10000 when it reads none or reads 0 |
| FilterControls.MinInputRoundTrip | app/components/FilterSlider.tsx:113 | typing any integer into the minimum box sets the minimum to it |
| FilterControls.MaxInputRoundTrip | app/components/FilterSlider.tsx:124 | typing an integer into the maximum box sets it, except that 0 becomes 10000 |
| FilterControls.ClearedInputs | app/components/FilterSlider.tsx:113-124 | a cleared box gives 0 for the minimum and 10000 for the maximum |
| FilterControls.TrailingTextIgnored | app/components/FilterSlider.tsx:124 | trailing non-digits are ignored: "12abc" gives 12 |
| FilterControls.NoDigitsFallsBack | app/components/FilterSlider.tsx:113-124 | text with no leading digits falls back to the defaults |
| FilterControls.OptionsCoverSelectors | app/components/FilterSlider.tsx:87-97 | the four buttons are all selectors, each once, with the texts "All", "Positive", "Neutral", "Negative" |
| FilterControls.ExactlyOneHighlighted | app/components/FilterSlider.tsx:87-95 | exactly one button matches the current selector |

## Left out

- Browser I/O: the Blob, object URL and link-click download of both exports, and the React state, effects and rendering around them.
- `exportToJSON`: it delegates to the platform's `JSON.stringify`.
- `formatDate`, `new Date(...)` and `toLocaleDateString`: locale and calendar rules belong to the platform. They enter as the `parse`, `dayText` and `dayTime` parameters.
- `generateMockTweets`: random synthesis from `Math.random` and `Date.now`.
- Icons, colours of the layout, theme preview, loading, search and tweet-card views: presentation only.
- Utils.FormatNumber: `toFixed(1)` is taken on the exact quotient with ties rounding up. The binary floating-point quotient can round a tie the other way, and this is not modelled.
- Sentiment.AnalyzeSentiment: steps are exact tenths. Repeated `+= 0.1` in floating point can drift just across the 0.4 and 0.6 thresholds, and this is not modelled.
- Stats.AverageLabelByTotals: the average is an exact real, not a floating-point quotient.
- Decimal.FixedTextParses: scores are taken to be whole thousandths. The program's scores are arbitrary doubles, which the export rounds to three places with `toFixed(3)`; that rounding and its binary tie behaviour are not modelled.
- Strings.Lower: case mapping covers the ASCII letters only; JavaScript's `toLowerCase` maps all of Unicode.
- Sentiment.CaseInsensitive: holds for ASCII case only, for the same reason.
- Decimal.ParseInt: exact on arbitrarily long digit runs, where JavaScript loses precision beyond 2^53. It also reads no `Infinity` and applies no radix other than 10 and 16.
- Counts and totals are unbounded integers; JavaScript numbers stop being exact beyond 2^53.
- Counting.Tally: keys are kept in insertion order. `Object.entries` lists integer-like keys such as "2024" first in numeric order; no label or usual day text is integer-like.
- Charts.SortByTime: it is proved to be an ascending permutation. That it is stable, as `Array.prototype.sort` is, is neither stated nor proved. A `dayTime` of NaN (an unparseable day text) is not modelled.
- Csv.RowRoundTrip: requires the unquoted identifier, author and timestamp columns to hold no `,` and no leading `"`, because the export writes them as they are. Csv.CommaInAuthorNameShiftsColumns states what happens otherwise.
- Csv.DocumentLines: requires that no column holds a line break, because the export writes line breaks inside the text column as they are.
- Stats: `totalReplies` is computed by the component but is shown on no card. It appears only in `Stats.TotalsMakeEngagement` and `Stats.TotalsAppend`.
