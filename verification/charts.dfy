/** The series behind the dashboard chart (app/components/ChartDisplay.tsx):
    the sentiment pie, the daily volume line, and the engagement histogram
    that the bar chart and any other variant show. */
module Charts {
  import opened Types
  import opened Strings
  import opened Counting

  /** The `variant` prop; `Bar` is its default. */
  datatype Variant = Bar | Line | Pie

  /** The sum of the values of a series. */
  function TotalValue(data: seq<ChartDatum>): nat
    decreases |data|
  {
    if |data| == 0 then 0 else TotalValue(data[..|data| - 1]) + data[|data| - 1].value
  }

  /** Some point of the series has this name. */
  predicate HasPointNamed(p: seq<ChartDatum>, name: string) {
    exists i :: 0 <= i < |p| && p[i].name == name
  }

  /** The point of one entry: named by `nameOf`, carrying the name as its
      date when `dated`. */
  function Point<K>(e: Entry<K>, nameOf: K -> string, dated: bool): ChartDatum {
    ChartDatum(nameOf(e.key), e.count, if dated then Some(nameOf(e.key)) else None)
  }

  /** `Object.entries(counts).map(([k, value]) => ({ name, value, date }))`:
      one point per entry, in entry order. */
  function Points<K>(r: seq<Entry<K>>, nameOf: K -> string, dated: bool): (p: seq<ChartDatum>)
    ensures |p| == |r|
    ensures forall i :: 0 <= i < |r| ==> p[i] == Point(r[i], nameOf, dated)
    ensures TotalValue(p) == Total(r)
    decreases |r|
  {
    if |r| == 0 then []
    else
      var n := |r| - 1;
      var rs := r[..n];
      var prev := Points(rs, nameOf, dated);
      var p := prev + [Point(r[n], nameOf, dated)];
      assert p[..n] == prev;
      assert forall i :: 0 <= i < n ==> p[i] == prev[i] && rs[i] == r[i];
      p
  }

  // ---------------------------------------------------------------------
  // Pie: sentiment distribution

  /** The labels of the tweets, in order. */
  function LabelsOf(ts: seq<Tweet>): (ls: seq<Label>)
    ensures |ls| == |ts| && forall i :: 0 <= i < |ts| ==> ls[i] == ts[i].sentimentLabel
  {
    seq(|ts|, i requires 0 <= i < |ts| => ts[i].sentimentLabel)
  }

  /** The pie series: one point per label that occurs, in the order each
      label is first met, valued by its number of tweets. */
  function PieData(ts: seq<Tweet>): (p: seq<ChartDatum>)
    ensures TotalValue(p) == |ts|
    ensures |ts| == 0 <==> |p| == 0
  {
    var r := Tally(LabelsOf(ts));
    assert |ts| > 0 ==> LabelsOf(ts)[0] in LabelsOf(ts);
    Points(r, DisplayName, false)
  }

  /** Each pie point names a label that occurs and counts exactly the
      tweets with that label. */
  lemma PieDataCounts(ts: seq<Tweet>)
    ensures var p := PieData(ts);
            forall i :: 0 <= i < |p| ==>
              exists l :: p[i].name == DisplayName(l) && l in LabelsOf(ts)
                          && p[i].value == multiset(LabelsOf(ts))[l] && p[i].date == None
  {
    var ls := LabelsOf(ts);
    var r := Tally(ls);
    var p := PieData(ts);
    forall i | 0 <= i < |p|
      ensures exists l :: p[i].name == DisplayName(l) && l in ls
                          && p[i].value == multiset(ls)[l] && p[i].date == None
    {
      assert HasKey(r, r[i].key);
      assert p[i].name == DisplayName(r[i].key);
    }
  }

  /** The pie has at most three points and never names a label twice. */
  lemma PieDataDistinct(ts: seq<Tweet>)
    ensures var p := PieData(ts);
            |p| <= 3 && forall i, j :: 0 <= i < j < |p| ==> p[i].name != p[j].name
  {
    var r := Tally(LabelsOf(ts));
    var p := PieData(ts);
    DisplayNames();
    DistinctLabelsAtMostThree(r);
    forall i, j | 0 <= i < j < |p|
      ensures p[i].name != p[j].name
    {
      assert p[i].name == DisplayName(r[i].key) && p[j].name == DisplayName(r[j].key);
      DisplayNameInjective(r[i].key, r[j].key);
    }
  }

  /** A label has a pie point exactly when some tweet carries it: a label
      no tweet carries is left out rather than shown as zero. */
  lemma PieDataPresence(ts: seq<Tweet>, l: Label)
    ensures HasPointNamed(PieData(ts), DisplayName(l))
            <==> exists k :: 0 <= k < |ts| && ts[k].sentimentLabel == l
  {
    var ls := LabelsOf(ts);
    var r := Tally(ls);
    var p := PieData(ts);
    DisplayNames();
    if l in ls {
      var i :| 0 <= i < |r| && r[i].key == l;
      assert p[i].name == DisplayName(l);
    }
    if exists i :: 0 <= i < |p| && p[i].name == DisplayName(l) {
      var i :| 0 <= i < |p| && p[i].name == DisplayName(l);
      DisplayNameInjective(r[i].key, l);
      assert r[i].key == l;
      assert HasKey(r, l);
    }
    assert l in ls <==> exists k :: 0 <= k < |ts| && ts[k].sentimentLabel == l by {
      if l in ls {
        var k :| 0 <= k < |ls| && ls[k] == l;
        assert ts[k].sentimentLabel == l;
      }
      if exists k :: 0 <= k < |ts| && ts[k].sentimentLabel == l {
        var k :| 0 <= k < |ts| && ts[k].sentimentLabel == l;
        assert ls[k] == l;
      }
    }
  }

  /** Three labels fit in at most three distinct keys. */
  lemma DistinctLabelsAtMostThree(r: seq<Entry<Label>>)
    requires DistinctKeys(r)
    ensures |r| <= 3
  {
    var keys := KeySet(r);
    var all: set<Label> := {Positive, Negative, Neutral};
    KeySetSize(r);
    forall l: Label
      ensures l in all
    {
      match l
      case Positive =>
      case Negative =>
      case Neutral =>
    }
    assert keys - all == {} && keys * all == keys && keys + all == all;
    assert |all| == 3;
    assert |all - keys| + |keys| == 3;
  }

  /** Different labels have different display names. */
  lemma DisplayNameInjective(a: Label, b: Label)
    ensures DisplayName(a) == DisplayName(b) ==> a == b
  {
    DisplayNames();
    assert "Positive"[0] != "Negative"[0] && "Positive"[0] != "Neutral"[0];
    assert "Negative"[2] != "Neutral"[2];
  }

  /** The pie lists labels in the order their first tweet appears. */
  lemma PieOrder(ts: seq<Tweet>)
    ensures var r := Tally(LabelsOf(ts));
            PieData(ts) == Points(r, DisplayName, false) && InFirstOccurrenceOrder(r, LabelsOf(ts))
  {
    TallyFirstOccurrenceOrder(LabelsOf(ts));
  }

  // ---------------------------------------------------------------------
  // Line: tweet volume per day

  /** The day text of every tweet, in order. */
  function DaysOf(ts: seq<Tweet>, dayText: string -> string): (ds: seq<string>)
    ensures |ds| == |ts| && forall i :: 0 <= i < |ts| ==> ds[i] == dayText(ts[i].createdAt)
  {
    seq(|ts|, i requires 0 <= i < |ts| => dayText(ts[i].createdAt))
  }

  /** The entries are in non-decreasing order of the time of their key. */
  predicate Ascending(s: seq<Entry<string>>, time: string -> int) {
    forall i, j :: 0 <= i < j < |s| ==> time(s[i].key) <= time(s[j].key)
  }

  /** Put `e` after every entry whose time is not later than its own, so
      that entries of equal time keep their order. */
  function Insert(s: seq<Entry<string>>, e: Entry<string>, time: string -> int): (r: seq<Entry<string>>)
    ensures |r| == |s| + 1
    ensures multiset(r) == multiset(s) + multiset{e}
    ensures Total(r) == Total(s) + e.count
    decreases |s|
  {
    if |s| == 0 || time(s[|s| - 1].key) <= time(e.key) then
      var r := s + [e];
      assert r[..|s|] == s;
      r
    else
      var n := |s| - 1;
      assert s == s[..n] + [s[n]];
      var front := Insert(s[..n], e, time);
      var r := front + [s[n]];
      assert r[..|front|] == front;
      r
  }

  /** Every entry of `Insert(s, e)` is an entry of `s` or `e` itself. */
  lemma InsertFrom(s: seq<Entry<string>>, e: Entry<string>, time: string -> int, x: Entry<string>)
    requires x in Insert(s, e, time)
    ensures x == e || exists k :: 0 <= k < |s| && s[k] == x
  {
    assert x in multiset(Insert(s, e, time));
  }

  /** When `e` goes before the last entry of an ascending `s`, everything
      in front of that entry is no later than it. */
  lemma FrontNoLater(s: seq<Entry<string>>, e: Entry<string>, time: string -> int)
    requires Ascending(s, time) && |s| > 0 && time(e.key) < time(s[|s| - 1].key)
    ensures var front := Insert(s[..|s| - 1], e, time);
            forall i :: 0 <= i < |front| ==> time(front[i].key) <= time(s[|s| - 1].key)
  {
    var n := |s| - 1;
    var front := Insert(s[..n], e, time);
    forall i | 0 <= i < |front|
      ensures time(front[i].key) <= time(s[n].key)
    {
      InsertFrom(s[..n], e, time, front[i]);
      if front[i] != e {
        var k :| 0 <= k < n && s[..n][k] == front[i];
        assert s[k] == front[i];
      }
    }
  }

  /** Inserting into an ascending list keeps it ascending. */
  lemma {:induction false} InsertKeepsAscending(s: seq<Entry<string>>, e: Entry<string>, time: string -> int)
    requires Ascending(s, time)
    ensures Ascending(Insert(s, e, time), time)
    decreases |s|
  {
    if |s| == 0 || time(s[|s| - 1].key) <= time(e.key) {
      assert Insert(s, e, time) == s + [e];
      forall i | 0 <= i < |s|
        ensures time(s[i].key) <= time(e.key)
      {
        if i < |s| - 1 {
          assert time(s[i].key) <= time(s[|s| - 1].key);
        }
      }
      AppendLatest(s, e, time);
    } else {
      var n := |s| - 1;
      var front := Insert(s[..n], e, time);
      assert Insert(s, e, time) == front + [s[n]];
      InsertKeepsAscending(s[..n], e, time);
      FrontNoLater(s, e, time);
      AppendLatest(front, s[n], time);
    }
  }

  /** An entry no earlier than every entry of an ascending list can go at
      its end. */
  lemma AppendLatest(front: seq<Entry<string>>, last: Entry<string>, time: string -> int)
    requires Ascending(front, time)
    requires forall i :: 0 <= i < |front| ==> time(front[i].key) <= time(last.key)
    ensures Ascending(front + [last], time)
  {
    var r := front + [last];
    forall i, j | 0 <= i < j < |r|
      ensures time(r[i].key) <= time(r[j].key)
    {
      assert r[i] == front[i];
      if j < |front| {
        assert r[j] == front[j];
      }
    }
  }

  /** `.sort(([a], [b]) => time(a) - time(b))`: a stable sort by time,
      built by inserting the entries one at a time. */
  function SortByTime(r: seq<Entry<string>>, time: string -> int): (s: seq<Entry<string>>)
    ensures |s| == |r| && multiset(s) == multiset(r)
    ensures Total(s) == Total(r)
    ensures Ascending(s, time)
    decreases |r|
  {
    if |r| == 0 then []
    else
      var n := |r| - 1;
      assert r == r[..n] + [r[n]];
      InsertKeepsAscending(SortByTime(r[..n], time), r[n], time);
      Insert(SortByTime(r[..n], time), r[n], time)
  }

  /** Sorting keeps keys distinct: it only rearranges the entries. */
  lemma SortKeepsDistinct(r: seq<Entry<string>>, time: string -> int)
    requires DistinctKeys(r)
    ensures DistinctKeys(SortByTime(r, time))
  {
    var s := SortByTime(r, time);
    forall i, j | 0 <= i < j < |s|
      ensures s[i].key != s[j].key
    {
      assert s[i] in multiset(r) && s[j] in multiset(r);
      var a :| 0 <= a < |r| && r[a] == s[i];
      var b :| 0 <= b < |r| && r[b] == s[j];
      if a == b {
        MultisetCountTwo(s, i, j);
        DistinctEntriesOnce(r, a);
      }
    }
  }

  /** An element at two indices occurs at least twice. */
  lemma MultisetCountTwo<T>(s: seq<T>, i: nat, j: nat)
    requires i < j < |s| && s[i] == s[j]
    ensures multiset(s)[s[i]] >= 2
  {
    assert s == s[..i] + [s[i]] + s[i + 1..j] + [s[j]] + s[j + 1..];
  }

  /** With distinct keys, every entry occurs once. */
  lemma {:induction false} DistinctEntriesOnce(r: seq<Entry<string>>, a: nat)
    requires DistinctKeys(r) && a < |r|
    ensures multiset(r)[r[a]] == 1
    decreases |r|
  {
    var n := |r| - 1;
    assert r == r[..n] + [r[n]];
    if a < n {
      DistinctEntriesOnce(r[..n], a);
      assert r[n] != r[a];
    } else {
      assert r[n] !in r[..n];
    }
  }

  /** A day is shown by its own text. */
  function DayName(d: string): string {
    d
  }

  /** Points of entries with distinct keys in ascending order have distinct
      names in ascending order. */
  lemma DayPointsOrdered(s: seq<Entry<string>>, time: string -> int)
    requires DistinctKeys(s) && Ascending(s, time)
    ensures var p := Points(s, DayName, true);
            && (forall i, j :: 0 <= i < j < |p| ==> p[i].name != p[j].name)
            && (forall i, j :: 0 <= i < j < |p| ==> time(p[i].name) <= time(p[j].name))
  {
    var p := Points(s, DayName, true);
    forall i, j | 0 <= i < j < |p|
      ensures p[i].name != p[j].name && time(p[i].name) <= time(p[j].name)
    {
      assert p[i].name == s[i].key && p[j].name == s[j].key;
    }
  }

  /** The line series: one point per distinct day text, ordered by the time
      of the day, valued by its number of tweets, with the day text as both
      name and date. */
  function LineData(ts: seq<Tweet>, dayText: string -> string, dayTime: string -> int): (p: seq<ChartDatum>)
    ensures TotalValue(p) == |ts|
    ensures |ts| == 0 <==> |p| == 0
  {
    var days := DaysOf(ts, dayText);
    var r := Tally(days);
    assert |ts| > 0 ==> days[0] in days;
    Points(SortByTime(r, dayTime), DayName, true)
  }

  /** Each line point is a day some tweet falls on, counts the tweets of
      that day, and repeats its name as its date. */
  lemma LineDataCounts(ts: seq<Tweet>, dayText: string -> string, dayTime: string -> int)
    ensures var p := LineData(ts, dayText, dayTime);
            var days := DaysOf(ts, dayText);
            forall i :: 0 <= i < |p| ==>
              p[i].name in days && p[i].value == multiset(days)[p[i].name]
              && p[i].date == Some(p[i].name)
  {
    var days := DaysOf(ts, dayText);
    var r := Tally(days);
    var s := SortByTime(r, dayTime);
    var p := LineData(ts, dayText, dayTime);
    assert p == Points(s, DayName, true);
    forall i | 0 <= i < |p|
      ensures p[i].name in days && p[i].value == multiset(days)[p[i].name]
      ensures p[i].date == Some(p[i].name)
    {
      assert p[i] == Point(s[i], DayName, true);
      assert s[i] in multiset(r);
      TalliedEntry(days, s[i]);
    }
  }

  /** No day appears twice, and the days ascend by time. */
  lemma LineDataOrdered(ts: seq<Tweet>, dayText: string -> string, dayTime: string -> int)
    ensures var p := LineData(ts, dayText, dayTime);
            && (forall i, j :: 0 <= i < j < |p| ==> p[i].name != p[j].name)
            && (forall i, j :: 0 <= i < j < |p| ==> dayTime(p[i].name) <= dayTime(p[j].name))
  {
    var r := Tally(DaysOf(ts, dayText));
    var s := SortByTime(r, dayTime);
    var p := LineData(ts, dayText, dayTime);
    assert p == Points(s, DayName, true);
    SortKeepsDistinct(r, dayTime);
    DayPointsOrdered(s, dayTime);
  }

  /** A key has a point exactly when the entries hold it, whatever their
      order. */
  lemma DayPointsPresence(s: seq<Entry<string>>, r: seq<Entry<string>>, d: string)
    requires multiset(s) == multiset(r)
    ensures HasPointNamed(Points(s, DayName, true), d) <==> HasKey(r, d)
  {
    var p := Points(s, DayName, true);
    assert HasKey(r, d) ==> exists i :: 0 <= i < |p| && p[i].name == d by {
      if HasKey(r, d) {
        var a :| 0 <= a < |r| && r[a].key == d;
        assert r[a] in multiset(s);
        var i :| 0 <= i < |s| && s[i] == r[a];
        assert p[i].name == d;
      }
    }
    assert (exists i :: 0 <= i < |p| && p[i].name == d) ==> HasKey(r, d) by {
      if exists i :: 0 <= i < |p| && p[i].name == d {
        var i :| 0 <= i < |p| && p[i].name == d;
        assert p[i].name == DayName(s[i].key);
        assert s[i] in multiset(r);
        var a :| 0 <= a < |r| && r[a] == s[i];
        assert r[a].key == d;
      }
    }
  }

  /** A day has a point exactly when some tweet falls on it. */
  lemma LineDataPresence(ts: seq<Tweet>, dayText: string -> string, dayTime: string -> int, d: string)
    ensures HasPointNamed(LineData(ts, dayText, dayTime), d)
            <==> exists k :: 0 <= k < |ts| && dayText(ts[k].createdAt) == d
  {
    var days := DaysOf(ts, dayText);
    var r := Tally(days);
    var s := SortByTime(r, dayTime);
    assert LineData(ts, dayText, dayTime) == Points(s, DayName, true);
    DayPointsPresence(s, r, d);
    assert HasKey(r, d) <==> d in days;
    if d in days {
      var k :| 0 <= k < |days| && days[k] == d;
      assert dayText(ts[k].createdAt) == d;
    }
    if exists k :: 0 <= k < |ts| && dayText(ts[k].createdAt) == d {
      var k :| 0 <= k < |ts| && dayText(ts[k].createdAt) == d;
      assert days[k] == d;
    }
  }

  // ---------------------------------------------------------------------
  // Histogram: engagement distribution

  /** One engagement bucket; `max == None` is the open-ended `Infinity`. */
  datatype Bucket = Bucket(name: string, min: nat, max: Option<nat>)

  const Buckets: seq<Bucket> := [
    Bucket("0-10", 0, Some(10)),
    Bucket("11-50", 11, Some(50)),
    Bucket("51-100", 51, Some(100)),
    Bucket("101-500", 101, Some(500)),
    Bucket("500+", 501, None)
  ]

  /** `engagement >= range.min && engagement <= range.max`. */
  predicate InBucket(e: int, b: Bucket) {
    e >= b.min && (b.max.None? || e <= b.max.value)
  }

  /** `tweets.filter(t => InBucket(engagement(t), b)).length`. */
  function CountIn(ts: seq<Tweet>, b: Bucket): (c: nat)
    ensures c <= |ts|
    decreases |ts|
  {
    if |ts| == 0 then 0
    else CountIn(ts[..|ts| - 1], b) + (if InBucket(Engagement(ts[|ts| - 1]), b) then 1 else 0)
  }

  /** The histogram: the five buckets, in their fixed order, each valued by
      the number of tweets whose engagement lies in it. */
  function Histogram(ts: seq<Tweet>): (h: seq<ChartDatum>)
    ensures |h| == |Buckets| == 5
    ensures forall i :: 0 <= i < 5 ==> h[i].name == Buckets[i].name && h[i].date == None
  {
    seq(5, i requires 0 <= i < 5 => ChartDatum(Buckets[i].name, CountIn(ts, Buckets[i]), None))
  }

  /** Which bucket an engagement count belongs to, read off the bucket
      names. */
  function BucketOf(e: nat): (i: nat)
    ensures i < 5
  {
    if e <= 10 then 0 else if e <= 50 then 1 else if e <= 100 then 2 else if e <= 500 then 3 else 4
  }

  /** The buckets partition the engagement counts: every count lies in
      exactly one bucket, the one `BucketOf` names. */
  lemma BucketsPartition(e: nat)
    ensures forall i :: 0 <= i < 5 ==> (InBucket(e, Buckets[i]) <==> i == BucketOf(e))
  {
  }

  /** The edges: 10 is the last of "0-10", 500 the last of "101-500", and
      501 the first of "500+". */
  lemma BucketEdges()
    ensures Buckets[BucketOf(10)].name == "0-10" && Buckets[BucketOf(11)].name == "11-50"
    ensures Buckets[BucketOf(50)].name == "11-50" && Buckets[BucketOf(51)].name == "51-100"
    ensures Buckets[BucketOf(100)].name == "51-100" && Buckets[BucketOf(101)].name == "101-500"
    ensures Buckets[BucketOf(500)].name == "101-500" && Buckets[BucketOf(501)].name == "500+"
  {
  }

  /** The five bucket counts, summed. */
  function SumOfBuckets(ts: seq<Tweet>): nat {
    CountIn(ts, Buckets[0]) + CountIn(ts, Buckets[1]) + CountIn(ts, Buckets[2])
    + CountIn(ts, Buckets[3]) + CountIn(ts, Buckets[4])
  }

  /** Every tweet is counted in exactly one bucket. */
  lemma {:induction false} SumOfBucketsIsLength(ts: seq<Tweet>)
    ensures SumOfBuckets(ts) == |ts|
    decreases |ts|
  {
    if |ts| > 0 {
      SumOfBucketsIsLength(ts[..|ts| - 1]);
      BucketsPartition(Engagement(ts[|ts| - 1]));
    }
  }

  /** The histogram values add up to the number of tweets. */
  lemma HistogramTotal(ts: seq<Tweet>)
    ensures TotalValue(Histogram(ts)) == |ts|
  {
    var h := Histogram(ts);
    assert h[..4][..3] == h[..3] && h[..3][..2] == h[..2] && h[..2][..1] == h[..1] && h[..1][..0] == [];
    assert TotalValue(h[..1]) == h[0].value;
    assert TotalValue(h[..2]) == TotalValue(h[..1]) + h[1].value;
    assert TotalValue(h[..3]) == TotalValue(h[..2]) + h[2].value;
    assert TotalValue(h[..4]) == TotalValue(h[..3]) + h[3].value;
    assert TotalValue(h) == TotalValue(h[..4]) + h[4].value;
    SumOfBucketsIsLength(ts);
  }

  /** Each histogram value counts exactly the tweets of its bucket: adding a
      tweet raises the value of its own bucket by one and no other. */
  lemma HistogramStep(ts: seq<Tweet>, t: Tweet)
    ensures forall i :: 0 <= i < 5 ==>
              Histogram(ts + [t])[i].value
                == Histogram(ts)[i].value + (if i == BucketOf(Engagement(t)) then 1 else 0)
  {
    assert (ts + [t])[..|ts|] == ts;
    BucketsPartition(Engagement(t));
  }

  // ---------------------------------------------------------------------
  // generateChartData, getChartTitle

  /** `generateChartData()`: the pie shows sentiment, the line daily volume,
      and the bar chart (the default) the engagement histogram. The day of a
      timestamp (`toLocaleDateString`) and the time of a day text
      (`new Date(day).getTime()`) are given. */
  function GenerateChartData(v: Variant, ts: seq<Tweet>, dayText: string -> string, dayTime: string -> int): (p: seq<ChartDatum>)
    ensures TotalValue(p) == |ts|
    ensures |p| == 0 <==> v != Bar && |ts| == 0
  {
    match v
    case Pie => PieData(ts)
    case Line => LineData(ts, dayText, dayTime)
    case Bar => HistogramTotal(ts); Histogram(ts)
  }

  /** `getChartTitle()`. */
  function ChartTitle(v: Variant): string {
    match v
    case Pie => "Sentiment Distribution"
    case Line => "Tweet Volume Over Time"
    case Bar => "Engagement Distribution"
  }

  /** The pie chart is titled by sentiment, the line chart by tweet volume,
      and every other variant, which is the histogram, by engagement. */
  lemma ChartTitles(v: Variant)
    ensures ChartTitle(Pie) == "Sentiment Distribution"
    ensures ChartTitle(Line) == "Tweet Volume Over Time"
    ensures v != Pie && v != Line ==> ChartTitle(v) == "Engagement Distribution"
  {
  }

  /** The chart is replaced by the no-data message exactly when the series
      is empty: the pie and line charts of no tweets; the histogram always
      has its five buckets, even when all are zero. */
  lemma NoDataMessage(v: Variant, ts: seq<Tweet>, dayText: string -> string, dayTime: string -> int)
    ensures |GenerateChartData(v, ts, dayText, dayTime)| == 0 <==> (v == Pie || v == Line) && |ts| == 0
    ensures v == Bar ==> |GenerateChartData(v, ts, dayText, dayTime)| == 5
  {
  }

  /** Each variant has its own title. */
  lemma TitlesDiffer(v: Variant, w: Variant)
    ensures ChartTitle(v) == ChartTitle(w) <==> v == w
  {
    assert "Sentiment Distribution"[0] != "Tweet Volume Over Time"[0];
    assert "Sentiment Distribution"[0] != "Engagement Distribution"[0];
    assert "Tweet Volume Over Time"[0] != "Engagement Distribution"[0];
  }
}
