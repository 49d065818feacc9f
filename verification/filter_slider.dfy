/** The filter panel (app/components/FilterSlider.tsx): each control hands
    back the current options with one field replaced. */
module FilterControls {
  import opened Types
  import opened Strings
  import opened Decimal

  datatype DateField = Start | End
  datatype Bound = Min | Max

  /** `handleDateChange(field, value)`. */
  function SetDate(f: FilterOptions, field: DateField, value: string): (g: FilterOptions)
    ensures g.sentiment == f.sentiment && g.engagementRange == f.engagementRange
    ensures field == Start ==> g.dateRange == DateRange(value, f.dateRange.end)
    ensures field == End ==> g.dateRange == DateRange(f.dateRange.start, value)
  {
    match field
    case Start => f.(dateRange := f.dateRange.(start := value))
    case End => f.(dateRange := f.dateRange.(end := value))
  }

  /** `handleSentimentChange(sentiment)`. */
  function SetSentiment(f: FilterOptions, s: Selector): (g: FilterOptions)
    ensures g.dateRange == f.dateRange && g.engagementRange == f.engagementRange
    ensures g.sentiment == s
  {
    f.(sentiment := s)
  }

  /** `handleEngagementChange(field, value)`. */
  function SetEngagement(f: FilterOptions, bound: Bound, value: int): (g: FilterOptions)
    ensures g.dateRange == f.dateRange && g.sentiment == f.sentiment
    ensures bound == Min ==> g.engagementRange == Range(value, f.engagementRange.max)
    ensures bound == Max ==> g.engagementRange == Range(f.engagementRange.min, value)
  {
    match bound
    case Min => f.(engagementRange := f.engagementRange.(min := value))
    case Max => f.(engagementRange := f.engagementRange.(max := value))
  }

  /** `parseInt(text) || fallback`: NaN and 0 are both falsy, so both give
      the fallback. */
  function NumberOr(text: string, fallback: int): (v: int)
    ensures v == fallback || (ParseInt(text).Some? && v == ParseInt(text).value != 0)
    ensures ParseInt(text).None? ==> v == fallback
    ensures ParseInt(text).Some? && ParseInt(text).value != 0 ==> v == ParseInt(text).value
  {
    match ParseInt(text)
    case None => fallback
    case Some(n) => if n == 0 then fallback else n
  }

  /** What the minimum box hands on: the number typed, or 0 when the text
      does not start with a number. */
  function MinInput(text: string): (v: int)
    ensures ParseInt(text).Some? ==> v == ParseInt(text).value
    ensures ParseInt(text).None? ==> v == 0
  {
    NumberOr(text, 0)
  }

  /** What the maximum box hands on: the number typed, or 10000 when the
      text does not start with a number, which a typed 0 also becomes. */
  function MaxInput(text: string): (v: int)
    ensures ParseInt(text).Some? && ParseInt(text).value != 0 ==> v == ParseInt(text).value
    ensures ParseInt(text).None? || ParseInt(text) == Some(0) ==> v == 10000
  {
    NumberOr(text, 10000)
  }

  /** Typing the decimal text of any integer into the minimum box sets the
      minimum to that integer. */
  lemma MinInputRoundTrip(n: int)
    ensures MinInput(IntToString(n)) == n
  {
    ParseIntToString(n);
  }

  /** Typing the decimal text of an integer into the maximum box sets the
      maximum to it, except that 0 becomes 10000. */
  lemma MaxInputRoundTrip(n: int)
    ensures MaxInput(IntToString(n)) == if n == 0 then 10000 else n
  {
    ParseIntToString(n);
  }

  /** A cleared box falls back: the minimum to 0, the maximum to 10000. */
  lemma ClearedInputs()
    ensures MinInput("") == 0 && MaxInput("") == 10000
  {
  }

  /** `parseInt` reads a leading digit run and ignores the rest: "12abc"
      sets 12. */
  lemma TrailingTextIgnored()
    ensures MaxInput("12abc") == 12
  {
    var t := "12abc";
    TrimStartKeeps(t);
    assert t == "12" + "abc";
    DigitPrefixStops("12", "abc", 10);
    assert "12"[..1] == "1" && "1"[..0] == "";
    assert ValueOf("12", 10) == 12;
    assert DigitRunValue(t, 10) == Some(12);
    assert ParseMagnitude(t) == Some(12);
    assert ParseInt(t) == Some(12);
  }

  /** Text with no leading digits is NaN, and falls back. */
  lemma NoDigitsFallsBack()
    ensures MaxInput("abc") == 10000 && MinInput("abc") == 0
  {
    TrimStartKeeps("abc");
    assert DigitPrefix("abc", 10) == "";
    assert DigitRunValue("abc", 10) == None;
    assert ParseMagnitude("abc") == None;
  }

  /** The four sentiment buttons, in order. */
  const SentimentOptions: seq<Selector> := [All, Only(Positive), Only(Neutral), Only(Negative)]

  /** A button's text: 'All', or the label with its first letter upper-cased. */
  function OptionText(s: Selector): string {
    match s
    case All => "All"
    case Only(l) => DisplayName(l)
  }

  /** Every selector has a button, no selector has two, and the four button
      texts are "All", "Positive", "Neutral", "Negative". */
  lemma OptionsCoverSelectors(s: Selector)
    ensures s in SentimentOptions
    ensures forall i, j :: 0 <= i < j < |SentimentOptions| ==> SentimentOptions[i] != SentimentOptions[j]
    ensures OptionText(SentimentOptions[0]) == "All" && OptionText(SentimentOptions[1]) == "Positive"
    ensures OptionText(SentimentOptions[2]) == "Neutral" && OptionText(SentimentOptions[3]) == "Negative"
  {
    DisplayNames();
    match s
    case All =>
    case Only(l) =>
      match l
      case Positive =>
      case Negative =>
      case Neutral =>
  }

  /** Exactly one button is highlighted: the one equal to the current
      selector. */
  lemma ExactlyOneHighlighted(f: FilterOptions)
    ensures exists i :: 0 <= i < |SentimentOptions| && SentimentOptions[i] == f.sentiment
    ensures forall i, j :: 0 <= i < j < |SentimentOptions| && SentimentOptions[i] == f.sentiment
              ==> SentimentOptions[j] != f.sentiment
  {
    OptionsCoverSelectors(f.sentiment);
  }

  /** Changes to different controls commute, the two ends of each range
      included, and a later change to the same control overrides an earlier
      one. */
  lemma UpdatesCommute(f: FilterOptions, field: DateField, d: string, e: string,
                       s: Selector, s': Selector, bound: Bound, v: int, w: int)
    ensures SetSentiment(SetDate(f, field, d), s) == SetDate(SetSentiment(f, s), field, d)
    ensures SetEngagement(SetDate(f, field, d), bound, v) == SetDate(SetEngagement(f, bound, v), field, d)
    ensures SetEngagement(SetSentiment(f, s), bound, v) == SetSentiment(SetEngagement(f, bound, v), s)
    ensures SetDate(SetDate(f, Start, d), End, e) == SetDate(SetDate(f, End, e), Start, d)
    ensures SetEngagement(SetEngagement(f, Min, v), Max, w) == SetEngagement(SetEngagement(f, Max, w), Min, v)
    ensures SetDate(SetDate(f, field, d), field, e) == SetDate(f, field, e)
    ensures SetSentiment(SetSentiment(f, s), s') == SetSentiment(f, s')
    ensures SetEngagement(SetEngagement(f, bound, v), bound, w) == SetEngagement(f, bound, w)
  {
  }

  /** Setting a control to the value it already has changes nothing. */
  lemma SettingCurrentValueIsNoChange(f: FilterOptions)
    ensures SetDate(f, Start, f.dateRange.start) == f && SetDate(f, End, f.dateRange.end) == f
    ensures SetSentiment(f, f.sentiment) == f
    ensures SetEngagement(f, Min, f.engagementRange.min) == f
    ensures SetEngagement(f, Max, f.engagementRange.max) == f
  {
  }
}
