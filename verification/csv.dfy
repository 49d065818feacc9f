/** The text `exportToCSV` builds (lib/utils.ts): a header line of ten column
    names, then one line per tweet, lines joined by '\n'. Only the tweet text
    is quoted, with each '"' doubled; the other fields are written as they
    are. The reader below is the usual quoted-field CSV reading of one line,
    used to state what the export can be read back as. */
module Csv {
  import opened Types
  import opened Strings
  import opened Decimal

  const Headers: seq<string> := [
    "Tweet ID", "Text", "Author Name", "Author Username", "Created At",
    "Likes", "Retweets", "Replies", "Sentiment Score", "Sentiment Label"
  ]

  /** Line 0 of the export. */
  function HeaderLine(): string {
    Join(Headers, ',')
  }

  /** `text.replace(/"/g, '""')`: every quote doubled, nothing else changed. */
  function Escape(s: string): string
    decreases |s|
  {
    if |s| == 0 then ""
    else (if s[0] == '"' then "\"\"" else [s[0]]) + Escape(s[1..])
  }

  /** The text column: the escaped text between two quotes. */
  function QuoteField(s: string): string {
    "\"" + Escape(s) + "\""
  }

  /** Collapses each `""` back to one quote. */
  function CollapsePairs(s: string): string
    decreases |s|
  {
    if |s| == 0 then ""
    else if |s| >= 2 && s[0] == '"' && s[1] == '"' then "\"" + CollapsePairs(s[2..])
    else [s[0]] + CollapsePairs(s[1..])
  }

  /** Strips the outer quotes of a quoted field and collapses the pairs. */
  function Unquote(s: string): Option<string> {
    if |s| >= 2 && s[0] == '"' && s[|s| - 1] == '"' then Some(CollapsePairs(s[1..|s| - 1]))
    else None
  }

  lemma {:induction false} CollapseEscape(t: string)
    ensures CollapsePairs(Escape(t)) == t
    decreases |t|
  {
    if |t| > 0 {
      CollapseEscape(t[1..]);
      var e := Escape(t[1..]);
      if t[0] == '"' {
        assert Escape(t) == "\"\"" + e;
        assert (Escape(t))[2..] == e;
      } else {
        assert Escape(t) == [t[0]] + e;
        assert (Escape(t))[1..] == e;
      }
      assert t == [t[0]] + t[1..];
    }
  }

  /** Stripping the quotes of the text column and collapsing `""` gives the
      tweet text back. */
  lemma QuoteRoundTrip(t: string)
    ensures Unquote(QuoteField(t)) == Some(t)
  {
    var q := QuoteField(t);
    assert q[1..|q| - 1] == Escape(t);
    CollapseEscape(t);
  }

  /** Escaping touches quotes only: every other character occurs in the
      escaped text exactly when it occurs in the text. */
  lemma {:induction false} EscapeKeepsOtherChars(s: string, c: char)
    requires c != '"'
    ensures c in Escape(s) <==> c in s
    decreases |s|
  {
    if |s| > 0 {
      EscapeKeepsOtherChars(s[1..], c);
      assert s == [s[0]] + s[1..];
    }
  }

  // ---------------------------------------------------------------------
  // Rows and the document

  /** A column of a row: written as is, or quoted. */
  datatype Field = Plain(text: string) | Quoted(text: string)

  function EncodeField(f: Field): string {
    match f
    case Plain(s) => s
    case Quoted(s) => QuoteField(s)
  }

  function EncodeFields(fs: seq<Field>): seq<string> {
    seq(|fs|, i requires 0 <= i < |fs| => EncodeField(fs[i]))
  }

  /** The values the fields carry. */
  function FieldValues(fs: seq<Field>): seq<string> {
    seq(|fs|, i requires 0 <= i < |fs| => fs[i].text)
  }

  /** The first five columns of a tweet's row: identifier, quoted text,
      author name and handle, timestamp. */
  function LeadingFields(t: Tweet): seq<Field> {
    [Plain(t.id), Quoted(t.text), Plain(t.authorName), Plain(t.authorUsername), Plain(t.createdAt)]
  }

  /** The last five columns: `toString()` of the three counts, `toFixed(3)`
      of the score, and the label. */
  function TrailingFields(t: Tweet): seq<Field> {
    [ Plain(IntToString(t.likes)), Plain(IntToString(t.retweets)), Plain(IntToString(t.replies)),
      Plain(FixedText(t.sentimentScore, 3)), Plain(LabelName(t.sentimentLabel)) ]
  }

  /** The columns of one tweet's row, in header order. */
  function RowFields(t: Tweet): seq<Field> {
    LeadingFields(t) + TrailingFields(t)
  }

  /** One tweet's line: its columns joined by ','. */
  function Row(t: Tweet): string {
    Join(EncodeFields(RowFields(t)), ',')
  }

  function Rows(ts: seq<Tweet>): seq<string> {
    seq(|ts|, i requires 0 <= i < |ts| => Row(ts[i]))
  }

  /** The whole export: header line, then one line per tweet in input order,
      joined by '\n'. */
  function Document(ts: seq<Tweet>): (r: string)
    ensures |ts| == 0 ==> r == HeaderLine()
  {
    Join([HeaderLine()] + Rows(ts), '\n')
  }

  // ---------------------------------------------------------------------
  // Reading one line back

  /** Reads the inside of a quoted field, after its opening quote: `""` is
      one quote and a lone '"' closes the field. Gives the content and what
      follows the closing quote; None when the field never closes. */
  function ReadQuoted(s: string): (r: Option<(string, string)>)
    ensures r.Some? ==> |r.value.1| < |s|
    decreases |s|
  {
    if |s| == 0 then None
    else if s[0] == '"' && |s| >= 2 && s[1] == '"' then
      match ReadQuoted(s[2..])
      case None => None
      case Some((c, rest)) => Some(("\"" + c, rest))
    else if s[0] == '"' then Some(("", s[1..]))
    else
      match ReadQuoted(s[1..])
      case None => None
      case Some((c, rest)) => Some(([s[0]] + c, rest))
  }

  /** Reads an unquoted field: everything up to the first ','. */
  function ReadPlain(s: string): (r: (string, string))
    ensures r.0 + r.1 == s && ',' !in r.0
    ensures |r.1| == 0 || r.1[0] == ','
    decreases |s|
  {
    if |s| == 0 || s[0] == ',' then ("", s)
    else
      var r := ReadPlain(s[1..]);
      assert s == [s[0]] + (r.0 + r.1);
      assert [s[0]] + r.0 + r.1 == [s[0]] + (r.0 + r.1);
      ([s[0]] + r.0, r.1)
  }

  /** Reads one line into its field values; None for a malformed quoted
      field. */
  function ParseRecord(s: string): Option<seq<string>>
    decreases |s|
  {
    if |s| > 0 && s[0] == '"' then
      match ReadQuoted(s[1..])
      case None => None
      case Some((v, rest)) =>
        if |rest| == 0 then Some([v])
        else if rest[0] != ',' then None
        else
          match ParseRecord(rest[1..])
          case None => None
          case Some(vs) => Some([v] + vs)
    else
      var (v, rest) := ReadPlain(s);
      if |rest| == 0 then Some([v])
      else
        match ParseRecord(rest[1..])
        case None => None
        case Some(vs) => Some([v] + vs)
  }

  /** Reading an escaped text followed by the closing quote gives the text
      and what follows the quote. */
  lemma {:induction false} ReadQuotedEscape(t: string, rest: string)
    requires |rest| == 0 || rest[0] != '"'
    ensures ReadQuoted(Escape(t) + "\"" + rest) == Some((t, rest))
    decreases |t|
  {
    var s := Escape(t) + "\"" + rest;
    if |t| == 0 {
      assert s == "\"" + rest;
      assert s[1..] == rest;
    } else {
      var tail := Escape(t[1..]) + "\"" + rest;
      ReadQuotedEscape(t[1..], rest);
      if t[0] == '"' {
        assert s == "\"\"" + tail;
        assert s[2..] == tail;
      } else {
        assert s == [t[0]] + tail;
        assert s[1..] == tail;
      }
      assert t == [t[0]] + t[1..];
    }
  }

  /** A field the reader takes back unchanged when it is written plain: no
      ',' and no leading '"'. */
  predicate SafePlain(s: string) {
    ',' !in s && (|s| == 0 || s[0] != '"')
  }

  predicate SafeFields(fs: seq<Field>) {
    forall i :: 0 <= i < |fs| ==> fs[i].Plain? ==> SafePlain(fs[i].text)
  }

  /** A plain field followed by ',' or by nothing reads as itself. */
  lemma {:induction false} ReadPlainStops(v: string, tail: string)
    requires ',' !in v
    requires |tail| == 0 || tail[0] == ','
    ensures ReadPlain(v + tail) == (v, tail)
    decreases |v|
  {
    if |v| > 0 {
      assert (v + tail)[1..] == v[1..] + tail;
      ReadPlainStops(v[1..], tail);
      assert [v[0]] + v[1..] == v;
    } else {
      assert v + tail == tail;
    }
  }

  /** What reading a line gives when its first field is `v` and reading
      `tail`, a ',' and the rest or nothing, goes on from there. */
  function ReadThen(v: string, tail: string): Option<seq<string>>
    requires |tail| == 0 || tail[0] == ','
  {
    if |tail| == 0 then Some([v])
    else match ParseRecord(tail[1..])
         case None => None
         case Some(vs) => Some([v] + vs)
  }

  /** One step of the reader on a line that starts with a quote. */
  lemma QuotedStep(inner: string, v: string, tail: string)
    requires ReadQuoted(inner) == Some((v, tail))
    requires |tail| == 0 || tail[0] == ','
    ensures ParseRecord("\"" + inner) == ReadThen(v, tail)
  {
    assert ("\"" + inner)[1..] == inner;
  }

  /** One step of the reader on a line that does not start with a quote. */
  lemma PlainStep(s: string, v: string, tail: string)
    requires !(|s| > 0 && s[0] == '"') && ReadPlain(s) == (v, tail)
    ensures ParseRecord(s) == ReadThen(v, tail)
  {
  }

  /** A step stated on its own so that the verifier sees it over plain texts:
      a quoted content followed by more text, seen from the opening quote. */
  lemma QuotedThen(e: string, tail: string)
    ensures "\"" + e + "\"" + tail == "\"" + (e + "\"" + tail)
  {
  }

  /** A quoted field followed by the rest of a line. */
  lemma ParseQuotedThen(v: string, tail: string)
    requires |tail| == 0 || tail[0] == ','
    ensures ParseRecord(QuoteField(v) + tail) == ReadThen(v, tail)
  {
    var inner := Escape(v) + "\"" + tail;
    QuotedThen(Escape(v), tail);
    ReadQuotedEscape(v, tail);
    QuotedStep(inner, v, tail);
  }

  /** A plain field followed by the rest of a line. */
  lemma ParsePlainThen(v: string, tail: string)
    requires SafePlain(v)
    requires |tail| == 0 || tail[0] == ','
    ensures ParseRecord(v + tail) == ReadThen(v, tail)
  {
    var s := v + tail;
    if |v| > 0 {
      assert s[0] == v[0];
    } else if |tail| > 0 {
      assert s[0] == ',';
    }
    ReadPlainStops(v, tail);
    PlainStep(s, v, tail);
  }

  /** One field followed by the rest of a line. */
  lemma ParseFieldThen(f: Field, tail: string)
    requires f.Plain? ==> SafePlain(f.text)
    requires |tail| == 0 || tail[0] == ','
    ensures ParseRecord(EncodeField(f) + tail) == ReadThen(f.text, tail)
  {
    match f
    case Quoted(v) => ParseQuotedThen(v, tail);
    case Plain(v) => ParsePlainThen(v, tail);
  }

  /** The reader takes an encoded line back to the field values, when the
      plain fields hold no ',' and start with no '"'. */
  lemma {:induction false} ParseEncodedRecord(fs: seq<Field>)
    requires |fs| >= 1 && SafeFields(fs)
    ensures ParseRecord(Join(EncodeFields(fs), ',')) == Some(FieldValues(fs))
    decreases |fs|
  {
    var enc := EncodeFields(fs);
    if |fs| == 1 {
      ParseFieldThen(fs[0], "");
      assert EncodeField(fs[0]) + "" == EncodeField(fs[0]);
      assert FieldValues(fs) == [fs[0].text];
    } else {
      assert EncodeFields(fs[1..]) == enc[1..];
      assert FieldValues(fs) == [fs[0].text] + FieldValues(fs[1..]);
      ParseEncodedRecord(fs[1..]);
      var tail := [','] + Join(enc[1..], ',');
      assert Join(enc, ',') == EncodeField(fs[0]) + tail;
      assert tail[1..] == Join(enc[1..], ',');
      ParseFieldThen(fs[0], tail);
    }
  }

  /** No field value holds a line break. */
  predicate BreakFree(fs: seq<Field>) {
    forall i :: 0 <= i < |fs| ==> '\n' !in fs[i].text
  }

  lemma FieldsAppend(a: seq<Field>, b: seq<Field>)
    ensures SafeFields(a) && SafeFields(b) ==> SafeFields(a + b)
    ensures BreakFree(a) && BreakFree(b) ==> BreakFree(a + b)
  {
    forall i | |a| <= i < |a + b|
      ensures (a + b)[i] == b[i - |a|]
    {
    }
  }

  /** Number renderings are safe to write plain and hold no line break. */
  lemma NumberTextIsSafe(s: string)
    requires IsNumberText(s)
    ensures SafePlain(s) && '\n' !in s
  {
  }

  /** Four number renderings and a label, written plain, are safe to read
      and hold no line break. */
  lemma NumberFieldsSafe(a: string, b: string, c: string, d: string, l: Label)
    requires IsNumberText(a) && IsNumberText(b) && IsNumberText(c) && IsNumberText(d)
    ensures var fs := [Plain(a), Plain(b), Plain(c), Plain(d), Plain(LabelName(l))];
            SafeFields(fs) && BreakFree(fs)
  {
    NumberTextIsSafe(a);
    NumberTextIsSafe(b);
    NumberTextIsSafe(c);
    NumberTextIsSafe(d);
    PlainFieldsSafe([a, b, c, d, LabelName(l)]);
  }

  /** Plain fields whose texts are each safe and free of line breaks. */
  lemma PlainFieldsSafe(texts: seq<string>)
    requires forall i :: 0 <= i < |texts| ==> SafePlain(texts[i]) && '\n' !in texts[i]
    ensures var fs := seq(|texts|, i requires 0 <= i < |texts| => Plain(texts[i]));
            SafeFields(fs) && BreakFree(fs)
  {
  }

  lemma TrailingFieldsSafe(t: Tweet)
    ensures SafeFields(TrailingFields(t)) && BreakFree(TrailingFields(t))
  {
    IntToStringIsNumberText(t.likes);
    IntToStringIsNumberText(t.retweets);
    IntToStringIsNumberText(t.replies);
    FixedTextIsNumberText(t.sentimentScore, 3);
    NumberFieldsSafe(IntToString(t.likes), IntToString(t.retweets), IntToString(t.replies),
                     FixedText(t.sentimentScore, 3), t.sentimentLabel);
  }

  /** The values a tweet's row should read back as, in header order. */
  function RowValues(t: Tweet): seq<string> {
    [t.id, t.text, t.authorName, t.authorUsername, t.createdAt]
    + [ IntToString(t.likes), IntToString(t.retweets), IntToString(t.replies),
        FixedText(t.sentimentScore, 3), LabelName(t.sentimentLabel) ]
  }

  /** The values of a row's fields are the expected column values. */
  lemma RowFieldValues(t: Tweet)
    ensures FieldValues(RowFields(t)) == RowValues(t)
  {
    EncodeFieldsAppend(LeadingFields(t), TrailingFields(t));
    LeadingValues(t);
    PlainValues(IntToString(t.likes), IntToString(t.retweets), IntToString(t.replies),
                FixedText(t.sentimentScore, 3), LabelName(t.sentimentLabel));
  }

  /** A step stated on its own so that the verifier sees it over plain texts:
      the five leading columns carry their texts. */
  lemma LeadingValues(t: Tweet)
    ensures FieldValues(LeadingFields(t)) == [t.id, t.text, t.authorName, t.authorUsername, t.createdAt]
  {
  }

  /** A step stated on its own so that the verifier sees it over plain texts:
      five plain fields carry their five texts. */
  lemma PlainValues(a: string, b: string, c: string, d: string, e: string)
    ensures FieldValues([Plain(a), Plain(b), Plain(c), Plain(d), Plain(e)]) == [a, b, c, d, e]
  {
  }

  /** The unquoted columns a row writes as they are. */
  predicate PlainColumnsSafe(t: Tweet) {
    SafePlain(t.id) && SafePlain(t.authorName) && SafePlain(t.authorUsername) && SafePlain(t.createdAt)
  }

  lemma RowFieldsSafe(t: Tweet)
    requires PlainColumnsSafe(t)
    ensures SafeFields(RowFields(t))
  {
    TrailingFieldsSafe(t);
    LeadingSafe(t, TrailingFields(t));
  }

  /** The leading columns of a tweet whose plain columns are safe, followed
      by safe fields, are safe. */
  lemma LeadingSafe(t: Tweet, tr: seq<Field>)
    requires PlainColumnsSafe(t) && SafeFields(tr)
    ensures SafeFields(LeadingFields(t) + tr)
  {
    assert SafeFields(LeadingFields(t));
    FieldsAppend(LeadingFields(t), tr);
  }

  /** A row reads back as its ten column values, with the tweet text intact
      whatever quotes or commas it holds, provided the unquoted identifier,
      author and timestamp columns hold no ',' and start with no '"'. */
  lemma RowRoundTrip(t: Tweet)
    requires PlainColumnsSafe(t)
    ensures ParseRecord(Row(t)) == Some(RowValues(t))
    ensures |RowValues(t)| == |Headers|
  {
    RowFieldsSafe(t);
    ParseEncodedRecord(RowFields(t));
    RowFieldValues(t);
  }

  /** The column names hold no ',', no leading '"' and no line break. */
  lemma HeadersArePlain()
    ensures forall i :: 0 <= i < |Headers| ==> SafePlain(Headers[i]) && '\n' !in Headers[i]
  {
  }

  /** The header line reads back as the ten column names. */
  lemma HeaderRoundTrip()
    ensures ParseRecord(HeaderLine()) == Some(Headers)
    ensures Split(HeaderLine(), ',') == Headers
  {
    HeaderFieldsRead();
    HeadersArePlain();
    SplitJoin(Headers, ',');
  }

  /** The header line is the column names written as plain fields. */
  function HeaderFields(): seq<Field> {
    seq(|Headers|, i requires 0 <= i < |Headers| => Plain(Headers[i]))
  }

  lemma HeaderFieldsRead()
    ensures ParseRecord(Join(EncodeFields(HeaderFields()), ',')) == Some(Headers)
    ensures EncodeFields(HeaderFields()) == Headers
  {
    var fs := HeaderFields();
    HeadersArePlain();
    assert SafeFields(fs);
    assert EncodeFields(fs) == Headers;
    assert FieldValues(fs) == Headers;
    ParseEncodedRecord(fs);
  }

  // ---------------------------------------------------------------------
  // Lines of the document

  /** A list of parts without `c` joins into text without `c`. */
  lemma {:induction false} JoinKeepsOut(parts: seq<string>, sep: char, c: char)
    requires c != sep
    requires forall i :: 0 <= i < |parts| ==> c !in parts[i]
    ensures c !in Join(parts, sep)
    decreases |parts|
  {
    if |parts| > 1 {
      JoinKeepsOut(parts[1..], sep, c);
    }
  }

  /** No column of the tweet holds a line break. */
  predicate SingleLine(t: Tweet) {
    '\n' !in t.id && '\n' !in t.text && '\n' !in t.authorName
    && '\n' !in t.authorUsername && '\n' !in t.createdAt
  }

  lemma RowIsOneLine(t: Tweet)
    requires SingleLine(t)
    ensures '\n' !in Row(t)
  {
    TrailingFieldsSafe(t);
    assert BreakFree(LeadingFields(t));
    FieldsAppend(LeadingFields(t), TrailingFields(t));
    EncodedBreakFree(RowFields(t));
    JoinKeepsOut(EncodeFields(RowFields(t)), ',', '\n');
  }

  /** Encoding adds no line break to fields that hold none. */
  lemma EncodedBreakFree(fs: seq<Field>)
    requires BreakFree(fs)
    ensures forall i :: 0 <= i < |EncodeFields(fs)| ==> '\n' !in EncodeFields(fs)[i]
  {
    var enc := EncodeFields(fs);
    forall i | 0 <= i < |enc|
      ensures '\n' !in enc[i]
    {
      EscapeKeepsOtherChars(fs[i].text, '\n');
    }
  }

  lemma HeaderIsOneLine()
    ensures '\n' !in HeaderLine()
  {
    HeadersArePlain();
    JoinKeepsOut(Headers, ',', '\n');
  }

  lemma LinesAreBreakFree(ts: seq<Tweet>)
    requires forall i :: 0 <= i < |ts| ==> SingleLine(ts[i])
    ensures forall i :: 0 <= i < |ts| + 1 ==> '\n' !in ([HeaderLine()] + Rows(ts))[i]
  {
    HeaderIsOneLine();
    var rows := Rows(ts);
    forall i | 0 <= i < |ts|
      ensures '\n' !in rows[i]
    {
      RowIsOneLine(ts[i]);
    }
  }

  /** Split at '\n', the export is the header line followed by exactly one
      line per tweet in input order, when no column holds a line break. */
  lemma DocumentLines(ts: seq<Tweet>)
    requires forall i :: 0 <= i < |ts| ==> SingleLine(ts[i])
    ensures Split(Document(ts), '\n') == [HeaderLine()] + Rows(ts)
    ensures |Split(Document(ts), '\n')| == |ts| + 1
  {
    LinesAreBreakFree(ts);
    SplitJoin([HeaderLine()] + Rows(ts), '\n');
  }

  lemma EncodeFieldsAppend(a: seq<Field>, b: seq<Field>)
    ensures EncodeFields(a + b) == EncodeFields(a) + EncodeFields(b)
    ensures FieldValues(a + b) == FieldValues(a) + FieldValues(b)
  {
  }

  /** A plain field with a ',' inside encodes like two plain fields. */
  lemma SplitPlainField(head: seq<Field>, x: string, y: string, tail: seq<Field>)
    requires |head| >= 1 && |tail| >= 1
    ensures Join(EncodeFields(head + [Plain(x + "," + y)] + tail), ',')
            == Join(EncodeFields(head + [Plain(x), Plain(y)] + tail), ',')
  {
    var h, e := EncodeFields(head), EncodeFields(tail);
    assert head + [Plain(x + "," + y)] + tail == head + ([Plain(x + "," + y)] + tail);
    EncodeFieldsAppend(head, [Plain(x + "," + y)] + tail);
    EncodeFieldsAppend([Plain(x + "," + y)], tail);
    assert head + [Plain(x), Plain(y)] + tail == head + ([Plain(x), Plain(y)] + tail);
    EncodeFieldsAppend(head, [Plain(x), Plain(y)] + tail);
    EncodeFieldsAppend([Plain(x), Plain(y)], tail);
    assert EncodeFields([Plain(x + "," + y)]) == [x + "," + y];
    assert EncodeFields([Plain(x), Plain(y)]) == [x, y];
    JoinSplitsPiece(h, x, y, e, ',');
  }

  /** Reading a line in which a plain field with a ',' inside was written:
      the field comes back as its two halves. */
  lemma ReadSplitField(head: seq<Field>, first: string, last: string, tail: seq<Field>)
    requires |head| >= 1 && |tail| >= 1
    requires SafeFields(head + [Plain(first), Plain(last)] + tail)
    ensures ParseRecord(Join(EncodeFields(head + [Plain(first + "," + last)] + tail), ','))
              == Some(FieldValues(head + [Plain(first), Plain(last)] + tail))
  {
    ParseEncodedRecord(head + [Plain(first), Plain(last)] + tail);
    SplitPlainField(head, first, last, tail);
  }

  /** The eleven fields a row reads as when its author name is
      `first,last`. */
  function SplitRow(t: Tweet, first: string, last: string): seq<Field> {
    [Plain(t.id), Quoted(t.text), Plain(first), Plain(last), Plain(t.authorUsername), Plain(t.createdAt)]
    + TrailingFields(t)
  }

  /** A row whose author name is `first,last` reads as the split fields. */
  lemma SplitRowReads(t: Tweet, first: string, last: string)
    requires t.authorName == first + "," + last
    requires SafePlain(first) && SafePlain(last)
    requires SafePlain(t.id) && SafePlain(t.authorUsername) && SafePlain(t.createdAt)
    ensures ParseRecord(Row(t)) == Some(FieldValues(SplitRow(t, first, last)))
  {
    TrailingFieldsSafe(t);
    ReadNameSplit(t, first, last, TrailingFields(t));
  }

  /** The leading columns with the author name `first,last`, followed by any
      safe columns `tr`, read as the name's two halves followed by `tr`. */
  lemma ReadNameSplit(t: Tweet, first: string, last: string, tr: seq<Field>)
    requires t.authorName == first + "," + last
    requires SafePlain(first) && SafePlain(last)
    requires SafePlain(t.id) && SafePlain(t.authorUsername) && SafePlain(t.createdAt)
    requires |tr| >= 1 && SafeFields(tr)
    ensures ParseRecord(Join(EncodeFields(LeadingFields(t) + tr), ','))
              == Some(FieldValues([Plain(t.id), Quoted(t.text), Plain(first), Plain(last),
                                   Plain(t.authorUsername), Plain(t.createdAt)] + tr))
  {
    var head := [Plain(t.id), Quoted(t.text)];
    var tail := [Plain(t.authorUsername), Plain(t.createdAt)] + tr;
    var split := [Plain(t.id), Quoted(t.text), Plain(first), Plain(last), Plain(t.authorUsername), Plain(t.createdAt)];
    assert SafeFields(split);
    FieldsAppend(split, tr);
    assert split + tr == head + [Plain(first), Plain(last)] + tail;
    assert LeadingFields(t) + tr == head + [Plain(first + "," + last)] + tail;
    ReadSplitField(head, first, last, tail);
  }

  /** The columns other than the text are written without quotes, so a ','
      in an author's name splits that column in two: the row reads back as
      eleven values, the name as two, and every later column one place to
      the right (the label lands in an eleventh column the header lacks). */
  lemma CommaInAuthorNameShiftsColumns(t: Tweet, first: string, last: string)
    requires t.authorName == first + "," + last
    requires SafePlain(first) && SafePlain(last)
    requires SafePlain(t.id) && SafePlain(t.authorUsername) && SafePlain(t.createdAt)
    ensures ParseRecord(Row(t)).Some?
    ensures var v := ParseRecord(Row(t)).value;
            && |v| == |Headers| + 1
            && v[0] == t.id && v[1] == t.text && v[2] == first && v[3] == last
            && v[4] == t.authorUsername && v[10] == LabelName(t.sentimentLabel)
  {
    SplitRowReads(t, first, last);
    SplitRowValues(t, first, last);
  }

  /** The values of the split fields, column by column. */
  lemma SplitRowValues(t: Tweet, first: string, last: string)
    ensures var v := FieldValues(SplitRow(t, first, last));
            && |v| == |Headers| + 1
            && v[0] == t.id && v[1] == t.text && v[2] == first && v[3] == last
            && v[4] == t.authorUsername && v[10] == LabelName(t.sentimentLabel)
  {
    TrailingShape(t);
    NameSplitValues(t, first, last, TrailingFields(t));
  }

  /** A step stated on its own so that the verifier sees it over plain texts:
      the values of the leading columns with the name split in two,
      followed by five more columns. */
  lemma NameSplitValues(t: Tweet, first: string, last: string, tr: seq<Field>)
    requires |tr| == 5
    ensures var v := FieldValues([Plain(t.id), Quoted(t.text), Plain(first), Plain(last),
                                  Plain(t.authorUsername), Plain(t.createdAt)] + tr);
            && |v| == |Headers| + 1
            && v[0] == t.id && v[1] == t.text && v[2] == first && v[3] == last
            && v[4] == t.authorUsername && v[10] == tr[4].text
  {
  }

  /** A step stated on its own so that the verifier sees it over plain texts:
      five trailing columns, the label last. */
  lemma TrailingShape(t: Tweet)
    ensures |TrailingFields(t)| == 5 && TrailingFields(t)[4] == Plain(LabelName(t.sentimentLabel))
  {
  }
}
