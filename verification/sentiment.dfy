/** The placeholder keyword scorer `analyzeSentiment` (lib/mockData.ts). The
    score is kept in integer tenths: the 0.5 baseline is 5, each step of 0.1
    is 1, and the clamp to [0, 1] is a clamp to [0, 10]. */
module Sentiment {
  import opened Types
  import opened Strings

  const PositiveWords: seq<string> :=
    ["great", "amazing", "love", "excellent", "fantastic", "bullish", "impressed", "exciting"]
  const NegativeWords: seq<string> :=
    ["bad", "terrible", "hate", "awful", "disappointing", "bearish", "concerns", "issues"]

  /** `keywords.some(k => word.includes(k))`. */
  predicate HasKeyword(word: string, keywords: seq<string>) {
    exists k :: k in keywords && Contains(word, k)
  }

  /** The words scanned: the lower-cased text split at single spaces (runs
      of spaces give empty words, which match nothing). */
  function Words(text: string): seq<string> {
    Split(Lower(text), ' ')
  }

  /** How many of the words contain one of the keywords. */
  function CountWith(words: seq<string>, keywords: seq<string>): nat
    decreases |words|
  {
    if |words| == 0 then 0
    else CountWith(words[..|words| - 1], keywords)
         + (if HasKeyword(words[|words| - 1], keywords) then 1 else 0)
  }

  /** Net keyword hits of a text: words with a positive keyword minus words
      with a negative keyword; a word with both counts on both sides. */
  function NetHits(text: string): int {
    var words := Words(text);
    CountWith(words, PositiveWords) - CountWith(words, NegativeWords)
  }

  /** `Math.max(0, Math.min(1, score))` in tenths. */
  function ClampTenths(x: int): int {
    if 10 < x then 10 else if x < 0 then 0 else x
  }

  /** The score: the baseline plus the net hits, clamped once at the end. */
  function ScoreTenths(text: string): (r: int)
    ensures 0 <= r <= 10
    ensures 0 <= 5 + NetHits(text) <= 10 ==> r == 5 + NetHits(text)
    ensures 5 + NetHits(text) > 10 ==> r == 10
    ensures 5 + NetHits(text) < 0 ==> r == 0
  {
    ClampTenths(5 + NetHits(text))
  }

  /** The label thresholds: above 0.6 positive, below 0.4 negative. */
  function LabelFor(tenths: int): Label {
    if tenths > 6 then Positive else if tenths < 4 then Negative else Neutral
  }

  datatype Analysis = Analysis(score: int, verdict: Label)

  /** `analyzeSentiment(text)`: scan the words in order, step up for a
      positive keyword and down for a negative one, clamp, then label. */
  method AnalyzeSentiment(text: string) returns (a: Analysis)
    ensures a.score == ScoreTenths(text)
    ensures 0 <= a.score <= 10
    ensures a.verdict == Positive <==> a.score > 6
    ensures a.verdict == Negative <==> a.score < 4
    ensures a.verdict == Neutral <==> 4 <= a.score <= 6
  {
    var words := Words(text);
    var score := 5;
    var i := 0;
    while i < |words|
      invariant 0 <= i <= |words|
      invariant score == 5 + CountWith(words[..i], PositiveWords) - CountWith(words[..i], NegativeWords)
    {
      assert words[..i + 1][..i] == words[..i];
      if HasKeyword(words[i], PositiveWords) {
        score := score + 1;
      }
      if HasKeyword(words[i], NegativeWords) {
        score := score - 1;
      }
      i := i + 1;
    }
    assert words[..|words|] == words;
    score := if score < 10 then score else 10;
    score := if score > 0 then score else 0;
    a := Analysis(score, LabelFor(score));
  }

  lemma {:induction false} CountWithAppend(a: seq<string>, b: seq<string>, keywords: seq<string>)
    ensures CountWith(a + b, keywords) == CountWith(a, keywords) + CountWith(b, keywords)
    decreases |b|
  {
    if |b| == 0 {
      assert a + b == a;
    } else {
      var last := b[|b| - 1];
      assert (a + b)[..|a + b| - 1] == a + b[..|b| - 1];
      CountWithAppend(a, b[..|b| - 1], keywords);
    }
  }

  /** Scoring is word by word: the net hits of two texts joined by a space
      are the sum of their net hits. */
  lemma NetHitsAdditive(a: string, b: string)
    ensures NetHits(a + " " + b) == NetHits(a) + NetHits(b)
  {
    LowerConcat(a + " ", b);
    LowerConcat(a, " ");
    assert Lower(" ") == " ";
    SplitConcat(Lower(a), ' ', Lower(b));
    CountWithAppend(Words(a), Words(b), PositiveWords);
    CountWithAppend(Words(a), Words(b), NegativeWords);
  }

  /** The clamp applies once, to the net hits of the whole text, not to the
      running score: a text whose first part alone would clamp at 1 can
      still come back to the baseline. */
  lemma ClampOnceAtEnd(a: string, b: string)
    ensures ScoreTenths(a + " " + b) == ClampTenths(5 + NetHits(a) + NetHits(b))
    ensures NetHits(a) == 6 && NetHits(b) == -6 ==> ScoreTenths(a) == 10 && ScoreTenths(a + " " + b) == 5
  {
    NetHitsAdditive(a, b);
  }

  /** A single word steps the score by one for a positive keyword, down by
      one for a negative keyword, and not at all when it has both. */
  lemma OneWordStep(w: string)
    requires ' ' !in w
    ensures NetHits(w) == (if HasKeyword(Lower(w), PositiveWords) then 1 else 0)
                          - (if HasKeyword(Lower(w), NegativeWords) then 1 else 0)
  {
    assert ' ' !in Lower(w);
    SplitWithoutSeparator(Lower(w), ' ');
    var words := Words(w);
    assert words == [Lower(w)];
    assert words[..0] == [];
    assert CountWith(words, PositiveWords) == if HasKeyword(Lower(w), PositiveWords) then 1 else 0;
    assert CountWith(words, NegativeWords) == if HasKeyword(Lower(w), NegativeWords) then 1 else 0;
  }

  /** Matching ignores case: upper-casing letters changes nothing. */
  lemma CaseInsensitive(text: string)
    ensures ScoreTenths(Lower(text)) == ScoreTenths(text)
  {
    LowerIdempotent(text);
  }

  lemma {:induction false} CountWithNone(words: seq<string>, keywords: seq<string>)
    requires forall i :: 0 <= i < |words| ==> !HasKeyword(words[i], keywords)
    ensures CountWith(words, keywords) == 0
    decreases |words|
  {
    if |words| > 0 {
      CountWithNone(words[..|words| - 1], keywords);
    }
  }

  /** A text in which no word hits a keyword scores the 0.5 baseline and is
      labelled neutral. */
  lemma NoHitsIsBaseline(text: string)
    requires forall i :: 0 <= i < |Words(text)| ==>
               !HasKeyword(Words(text)[i], PositiveWords) && !HasKeyword(Words(text)[i], NegativeWords)
    ensures ScoreTenths(text) == 5 && LabelFor(ScoreTenths(text)) == Neutral
  {
    CountWithNone(Words(text), PositiveWords);
    CountWithNone(Words(text), NegativeWords);
  }

  /** Keywords match inside longer words: "greatest" hits "great". */
  lemma SubstringHits()
    ensures HasKeyword("greatest", PositiveWords)
  {
    assert IsPrefix("great", "greatest");
    assert "great" in PositiveWords && Contains("greatest", "great");
  }
}
