/** The reader undoes the printer. */
module TextProofs {
  import opened Wrappers
  import opened Sequences
  import opened Metrics
  import opened CheckNames
  import opened TextFormat
  import opened TextParser

  // ----- numbers -------------------------------------------------------------

  ghost predicate AllDigits(s: string) {
    forall i | 0 <= i < |s| :: IsDigit(s[i])
  }

  lemma {:induction false} DigitCharValue(d: nat)
    requires d < 10
    ensures IsDigit(DigitChar(d)) && (DigitChar(d) - '0') as int == d
  {
  }

  lemma {:induction false} NatRoundTrip(n: nat)
    ensures ParseNat(NatText(n)) == n && AllDigits(NatText(n))
  {
    var s := NatText(n);
    if n < 10 {
      DigitCharValue(n);
    } else {
      NatRoundTrip(n / 10);
      DigitCharValue(n % 10);
      assert s[..|s| - 1] == NatText(n / 10);
    }
  }

  lemma {:induction false} IntRoundTrip(i: int)
    ensures ParseInt(IntText(i)) == AnInt(i)
    ensures IntText(i) != "" && forall k | 0 <= k < |IntText(i)| :: IsNumberChar(IntText(i)[k])
  {
    var n: nat := if i < 0 then -i else i;
    var s := NatText(n);
    NatRoundTrip(n);
    hide NatText, ParseNat;
    DigitsAreNumberChars(s);
    assert IsDigit(s[0]);
    Halves("-", s);
  }

  lemma {:induction false} DigitsAreNumberChars(s: string)
    requires AllDigits(s)
    ensures forall k | 0 <= k < |s| :: IsNumberChar(s[k])
  {
    assert forall k | 0 <= k < |s| :: IsDigit(s[k]);
  }

  lemma {:induction false} DoubleRoundTrip(d: Double)
    ensures ParseDouble(DoubleText(d)) == Some(d)
  {
    if d.Finite? {
      assert IsNumberChar(d.digits[0]);
      assert |d.digits| > 1 ==> IsNumberChar(d.digits[1]);
      assert d.digits != "Nan" by { assert "Nan"[0] == 'N'; }
      assert d.digits != "-Inf" by { assert "-Inf"[1] == 'I'; }
      assert d.digits != "+Inf" by { assert "+Inf"[1] == 'I'; }
    }
  }

  // ----- labels --------------------------------------------------------------

  lemma {:induction false} EscapedChar(c: char, after: string)
    ensures ParseEscaped(EscapeChar(c) + after) == Prepend(c, ParseEscaped(after))
  {
    Halves(EscapeChar(c), after);
  }

  lemma {:induction false} EscapeRoundTrip(v: string, rest: string)
    ensures ParseEscaped(Escape(v) + ("\"" + rest)) == Done(v, rest)
  {
    if v == "" {
      assert Escape(v) + ("\"" + rest) == "\"" + rest;
      Halves("\"", rest);
    } else {
      Associate(EscapeChar(v[0]), Escape(v[1..]), "\"" + rest);
      EscapedChar(v[0], Escape(v[1..]) + ("\"" + rest));
      EscapeRoundTrip(v[1..], rest);
      assert v == [v[0]] + v[1..];
    }
  }

  lemma {:induction false} LabelRoundTrip(l: Label, rest: string)
    requires IsLabelName(l.name)
    ensures ParseLabel(LabelText(l) + rest) == Done(l, rest)
  {
    hide Escape, ParseEscaped;
    var value := Escape(l.value) + ("\"" + rest);
    assert LabelText(l) + rest == l.name + ("=\"" + value);
    SpanStops(l.name, "=\"" + value, IsLabelChar);
    Halves(l.name, "=\"" + value);
    assert (l.name + ("=\"" + value))[|l.name| + 2..] == value;
    EscapeRoundTrip(l.value, rest);
  }

  lemma {:induction false} LabelsSplit(ls: seq<Label>, rest: string)
    requires |ls| > 1
    ensures LabelsText(ls) + ("}" + rest) == LabelText(ls[0]) + ("," + (LabelsText(ls[1..]) + ("}" + rest)))
  {
    hide LabelText;
  }

  lemma {:induction false} LabelsRoundTrip(ls: seq<Label>, rest: string)
    requires ls != [] && forall i | 0 <= i < |ls| :: IsLabelName(ls[i].name)
    ensures ParseLabels(LabelsText(ls) + ("}" + rest)) == Done(ls, rest)
    decreases |ls|
  {
    if |ls| == 1 {
      LabelRoundTrip(ls[0], "}" + rest);
      ParseLast(LabelText(ls[0]), ls[0], rest);
      assert [ls[0]] == ls;
    } else {
      var after := LabelsText(ls[1..]) + ("}" + rest);
      assert LabelText(ls[0]) != "";
      hide LabelText, LabelsText, ParseLabel, ParseLabels, IsLabelName;
      LabelsSplit(ls, rest);
      LabelRoundTrip(ls[0], "," + after);
      LabelsRoundTrip(ls[1..], rest);
      ParseMore(LabelText(ls[0]), ls[0], after, ls[1..], rest);
      assert [ls[0]] + ls[1..] == ls;
    }
  }

  lemma {:induction false} ParseLast(text: string, l: Label, rest: string)
    requires ParseLabel(text + ("}" + rest)) == Done(l, "}" + rest)
    ensures text != "" ==> ParseLabels(text + ("}" + rest)) == Done([l], rest)
  {
    hide ParseLabel;
    Halves("}", rest);
  }

  lemma {:induction false} ParseMore(text: string, l: Label, after: string, ls: seq<Label>, rest: string)
    requires ParseLabel(text + ("," + after)) == Done(l, "," + after) && ParseLabels(after) == Done(ls, rest)
    ensures text != "" ==> ParseLabels(text + ("," + after)) == Done([l] + ls, rest)
  {
    hide ParseLabel;
    Halves(",", after);
  }

  // ----- lines ---------------------------------------------------------------

  ghost predicate ValidLabels(ls: seq<Label>) {
    forall i | 0 <= i < |ls| :: IsLabelName(ls[i].name)
  }

  ghost predicate IsToken(s: string) {
    s != "" && forall i | 0 <= i < |s| :: NotBlank(s[i])
  }

  ghost predicate OneLine(s: string) {
    forall i | 0 <= i < |s| :: NotNewline(s[i])
  }

  lemma {:induction false} HeadRoundTrip(name: string, labels: seq<Label>, rest: string)
    requires IsMetricName(name) && ValidLabels(labels)
    ensures ParseHead(HeadText(name, labels) + rest) == Done((name, labels), rest)
  {
    hide LabelsText, ParseLabels;
    if labels == [] {
      assert HeadText(name, labels) + rest == name + (" " + rest);
      SpanStops(name, " " + rest, IsMetricChar);
      BodyAfter(name, ' ', rest);
    } else {
      var inside := LabelsText(labels) + ("}" + (" " + rest));
      assert HeadText(name, labels) + rest == name + ("{" + inside);
      SpanStops(name, "{" + inside, IsMetricChar);
      BodyAfter(name, '{', inside);
      LabelsRoundTrip(labels, " " + rest);
      Halves(" ", rest);
    }
  }

  lemma {:induction false} BodyAfter(name: string, c: char, rest: string)
    ensures var s := name + ([c] + rest);
      s[..|name|] == name && s[|name|] == c && s[|name| + 1..] == rest
  {
  }

  lemma {:induction false} TailRoundTrip(timestamp: int, rest: string)
    ensures ParseTail(TailText(timestamp) + rest) == Done(timestamp, rest)
  {
    if timestamp == 0 {
      Halves("\n", rest);
    } else {
      var digits := IntText(timestamp);
      IntRoundTrip(timestamp);
      hide IntText, ParseInt;
      assert TailText(timestamp) + rest == " " + (digits + ("\n" + rest));
      StampRoundTrip(digits, timestamp, rest);
    }
  }

  lemma {:induction false} StampRoundTrip(digits: string, timestamp: int, rest: string)
    requires ParseInt(digits) == AnInt(timestamp) && forall k | 0 <= k < |digits| :: IsNumberChar(digits[k])
    ensures ParseTail(" " + (digits + ("\n" + rest))) == Done(timestamp, rest)
  {
    hide ParseInt;
    assert forall k | 0 <= k < |digits| :: NotBlank(digits[k]);
    Halves(" ", digits + ("\n" + rest));
    SpanStops(digits, "\n" + rest, NotBlank);
    Halves(digits, "\n" + rest);
    Halves("\n", rest);
  }

  lemma {:induction false} TailStarts(timestamp: int)
    ensures TailText(timestamp) != "" && !NotBlank(TailText(timestamp)[0])
  {
  }

  lemma {:induction false} SampleRoundTrip(name: string, labels: seq<Label>, value: string, timestamp: int,
        rest: string)
    requires IsMetricName(name) && ValidLabels(labels) && IsToken(value)
    ensures ParseSample(EntryText(Sample(name, labels, value, timestamp)) + rest)
      == Done(Sample(name, labels, value, timestamp), rest)
  {
    TailStarts(timestamp);
    hide HeadText, TailText, ParseHead, ParseTail;
    var tail := TailText(timestamp) + rest;
    assert EntryText(Sample(name, labels, value, timestamp)) + rest == HeadText(name, labels) + (value + tail);
    HeadRoundTrip(name, labels, value + tail);
    SpanStops(value, tail, NotBlank);
    Halves(value, tail);
    TailRoundTrip(timestamp, rest);
  }

  lemma {:induction false} CommentParts(name: string, text: string, rest: string)
    requires IsToken(name) && OneLine(text)
    ensures ParseComment(name + " " + text + "\n" + rest) == Done((name, Trim(text)), rest)
  {
    var line := name + (" " + text);
    assert name + " " + text + "\n" + rest == line + ("\n" + rest);
    assert OneLine(line) by {
      assert forall i | 0 <= i < |name| :: NotBlank(name[i]);
    }
    SpanStops(line, "\n" + rest, NotNewline);
    BodyAfter(line, '\n', rest);
    assert NotBlank(name[0]) && line[0] == name[0];
    SpanStops(name, " " + text, NotBlank);
    Halves(name, " " + text);
    assert (" " + text)[1..] == text;
  }

  /** Every part of the entry but a help text is what the format allows there. */
  ghost predicate ValidEntry(e: Entry) {
    match e
    case HelpLine(name, _) => IsMetricName(name)
    case TypeLine(name, word) => IsMetricName(name) && IsToken(word)
    case Sample(name, labels, value, _) => IsMetricName(name) && ValidLabels(labels) && IsToken(value)
  }

  /**
   The help text is printed as it is, so it only means itself without the two characters
   the format escapes, and without blanks at either end, which separate it from its surroundings.
   */
  predicate FitsLine(s: string) {
    && (forall i | 0 <= i < |s| :: s[i] != '\n' && s[i] != '\\')
    && (s != "" ==> !IsBlank(s[0]) && !IsBlank(s[|s| - 1]))
  }

  predicate HelpFits(e: Entry) {
    e.HelpLine? ==> FitsLine(e.text)
  }

  /** Undoing escape sequences shortens a text that has any. */
  lemma {:induction false} UnescapeShortens(s: string)
    ensures (forall i | 0 <= i < |s| :: s[i] != '\\') ==> Unescape(s) == Some(s)
    ensures Unescape(s).Some? ==> |Unescape(s).value| <= |s|
    ensures Unescape(s).Some? && |Unescape(s).value| == |s| ==> forall i | 0 <= i < |s| :: s[i] != '\\'
  {
    if s == "" {
    } else {
      if s[0] == '\\' && |s| >= 2 {
        UnescapeShortens(s[2..]);
      } else if s[0] != '\\' {
        UnescapeShortens(s[1..]);
      }
      assert s == [s[0]] + s[1..];
      assert forall i | 0 < i < |s| :: s[i] == s[1..][i - 1];
    }
  }

  lemma {:induction false} NameIsToken(name: string)
    requires IsMetricName(name)
    ensures IsToken(name) && name[0] != '#'
  {
    assert forall i | 0 <= i < |name| :: IsMetricChar(name[i]);
  }

  /** What is read from a printed help line: its first line, trimmed and unescaped. */
  lemma {:induction false} HelpParts(name: string, text: string, rest: string)
    requires IsToken(name) && OneLine(text)
    ensures ParseEntry("# HELP " + name + " " + text + "\n" + rest)
      == match Unescape(Trim(text)) case None => Fail case Some(help) => Done(HelpLine(name, help), rest)
  {
    hide ParseComment, Unescape, Trim;
    var body := name + " " + text + "\n" + rest;
    assert "# HELP " + name + " " + text + "\n" + rest == "# HELP " + body;
    Halves("# HELP ", body);
    CommentParts(name, text, rest);
  }

  lemma {:induction false} HelpRoundTrip(name: string, text: string, rest: string)
    requires IsToken(name) && FitsLine(text)
    ensures ParseEntry("# HELP " + name + " " + text + "\n" + rest) == Done(HelpLine(name, text), rest)
  {
    hide ParseEntry, Unescape;
    HelpParts(name, text, rest);
    UnescapeShortens(text);
  }

  /** A help text that does not fit its line is not read back, whatever follows. */
  lemma {:induction false} HelpExactly(name: string, text: string, rest: string)
    requires IsToken(name)
    requires var p := ParseEntry("# HELP " + name + " " + text + "\n" + rest);
      p.Done? && p.value == HelpLine(name, text)
    ensures FitsLine(text)
  {
    var k := Span(text, NotNewline);
    var first, after := text[..k], if k < |text| then text[k + 1..] + "\n" + rest else rest;
    SpanPrefix(text, NotNewline);
    FirstLine(name, text, k, rest);
    hide ParseEntry, Unescape, Trim, FitsLine;
    HelpParts(name, first, after);
    FirstLineFits(text, k);
  }

  lemma {:induction false} FirstLineFits(text: string, k: nat)
    requires k <= |text| && OneLine(text[..k]) && Unescape(Trim(text[..k])) == Some(text)
    ensures FitsLine(text)
  {
    hide Unescape, TrimStart, TrimEnd;
    var first := text[..k];
    UnescapeShortens(Trim(first));
    assert |Trim(first)| <= |TrimStart(first)| <= |first| <= |text|;
    assert first == text;
  }

  lemma {:induction false} FirstLine(name: string, text: string, k: nat, rest: string)
    requires k <= |text| && (k < |text| ==> text[k] == '\n')
    ensures "# HELP " + name + " " + text + "\n" + rest
      == "# HELP " + name + " " + text[..k] + "\n" + (if k < |text| then text[k + 1..] + "\n" + rest else rest)
  {
    if k < |text| {
      assert text == text[..k] + "\n" + text[k + 1..];
    } else {
      assert text == text[..k];
    }
  }

  lemma {:induction false} TypeRoundTrip(name: string, word: string, rest: string)
    requires IsToken(name) && IsToken(word)
    ensures ParseEntry("# TYPE " + name + " " + word + "\n" + rest) == Done(TypeLine(name, word), rest)
  {
    assert Trim(word) == word by {
      assert NotBlank(word[0]) && NotBlank(word[|word| - 1]);
    }
    hide ParseComment, Trim;
    var body := name + " " + word + "\n" + rest;
    assert "# TYPE " + name + " " + word + "\n" + rest == "# TYPE " + body;
    assert ("# TYPE " + body)[2] == 'T' && "# HELP "[2] == 'H';
    Halves("# TYPE ", body);
    assert OneLine(word) by {
      assert forall i | 0 <= i < |word| :: NotBlank(word[i]);
    }
    CommentParts(name, word, rest);
  }

  lemma {:induction false} NotAComment(s: string)
    requires s != "" && s[0] != '#'
    ensures ParseEntry(s) == ParseSample(s)
  {
    assert "# HELP "[0] == '#' && "# TYPE "[0] == '#';
  }

  lemma {:induction false} EntryRoundTrip(e: Entry, rest: string)
    requires ValidEntry(e) && HelpFits(e)
    ensures ParseEntry(EntryText(e) + rest) == Done(e, rest)
  {
    hide ParseEntry, ParseSample, HeadText, TailText;
    NameIsToken(e.name);
    match e {
      case HelpLine(name, text) =>
        HelpRoundTrip(name, text, rest);
      case TypeLine(name, word) =>
        TypeRoundTrip(name, word, rest);
      case Sample(name, labels, value, timestamp) =>
        HeadStarts(name, labels);
        NotAComment(EntryText(e) + rest);
        SampleRoundTrip(name, labels, value, timestamp, rest);
    }
  }

  lemma {:induction false} HeadStarts(name: string, labels: seq<Label>)
    requires name != ""
    ensures HeadText(name, labels) != "" && HeadText(name, labels)[0] == name[0]
  {
  }

  // ----- documents -----------------------------------------------------------

  lemma {:induction false} TextConcat(a: seq<Entry>, b: seq<Entry>)
    ensures Text(a + b) == Text(a) + Text(b)
  {
    hide EntryText;
    if b == [] {
      assert a + b == a;
    } else {
      var init, last := b[..|b| - 1], b[|b| - 1];
      TextConcat(a, init);
      assert (a + b)[..|a + b| - 1] == a + init;
      Associate(Text(a), Text(init), EntryText(last));
    }
  }

  lemma {:induction false} TextCons(es: seq<Entry>)
    requires es != []
    ensures Text(es) == EntryText(es[0]) + Text(es[1..])
  {
    hide EntryText;
    var one := [es[0]];
    assert one[..0] == [];
    assert Text(one) == "" + EntryText(es[0]);
    assert "" + EntryText(es[0]) == EntryText(es[0]);
    assert es == one + es[1..];
    TextConcat(one, es[1..]);
  }

  lemma {:induction false} EntryTextNonempty(e: Entry)
    ensures EntryText(e) != ""
  {
  }

  lemma {:induction false} DocumentParses(es: seq<Entry>)
    requires forall i | 0 <= i < |es| :: ValidEntry(es[i]) && HelpFits(es[i])
    ensures Parse(Text(es)) == Document(es)
    decreases |es|
  {
    hide EntryText, ParseEntry, ValidEntry, HelpFits;
    if es == [] {
    } else {
      TextCons(es);
      EntryRoundTrip(es[0], Text(es[1..]));
      EntryTextNonempty(es[0]);
      DocumentParses(es[1..]);
      assert es == [es[0]] + es[1..];
    }
  }

  lemma {:induction false} SpanPrefix(s: string, accepts: char -> bool)
    ensures forall i | 0 <= i < Span(s, accepts) :: accepts(s[i])
    ensures Span(s, accepts) < |s| ==> !accepts(s[Span(s, accepts)])
  {
    if s == "" || !accepts(s[0]) {
    } else {
      SpanPrefix(s[1..], accepts);
      assert forall i | 0 < i < |s| :: s[i] == s[1..][i - 1];
    }
  }

  lemma {:induction false} EntryFits(e: Entry, rest: string)
    requires ValidEntry(e) && ParseEntry(EntryText(e) + rest).Done? && ParseEntry(EntryText(e) + rest).value == e
    ensures HelpFits(e)
  {
    if e.HelpLine? {
      hide ParseEntry;
      NameIsToken(e.name);
      HelpExactly(e.name, e.text, rest);
    }
  }

  lemma {:induction false} DocumentFits(es: seq<Entry>)
    requires (forall i | 0 <= i < |es| :: ValidEntry(es[i])) && Parse(Text(es)) == Document(es)
    ensures forall i | 0 <= i < |es| :: HelpFits(es[i])
    decreases |es|
  {
    hide EntryText, ParseEntry, ValidEntry, HelpFits;
    if es == [] {
    } else {
      var e, rest := es[0], Text(es[1..]);
      TextCons(es);
      EntryTextNonempty(e);
      assert ParseEntry(EntryText(e) + rest).Done? && ParseEntry(EntryText(e) + rest).value == e;
      EntryFits(e, rest);
      EntryRoundTrip(e, rest);
      assert Parse(rest) == Document(es[1..]);
      DocumentFits(es[1..]);
    }
  }

  /** A printed document reads back as the entries it was printed from exactly when every help text fits its line. */
  lemma {:induction false} DocumentRoundTrip(es: seq<Entry>)
    requires forall i | 0 <= i < |es| :: ValidEntry(es[i])
    ensures Parse(Text(es)) == Document(es) <==> forall i | 0 <= i < |es| :: HelpFits(es[i])
  {
    if forall i | 0 <= i < |es| :: HelpFits(es[i]) {
      DocumentParses(es);
    } else if Parse(Text(es)) == Document(es) {
      DocumentFits(es);
    }
  }

  /** Heads are injective: equal heads come from the same name and the same labels in the same order. */
  lemma {:induction false} HeadsInjective(name: string, labels: seq<Label>, name': string, labels': seq<Label>)
    requires IsMetricName(name) && ValidLabels(labels) && IsMetricName(name') && ValidLabels(labels')
    requires HeadText(name, labels) == HeadText(name', labels')
    ensures name == name' && labels == labels'
  {
    HeadRoundTrip(name, labels, "");
    HeadRoundTrip(name', labels', "");
  }

  // ----- newlines ------------------------------------------------------------

  lemma {:induction false} EscapeOneLine(v: string)
    ensures OneLine(Escape(v))
  {
    if v == "" {
    } else {
      EscapeOneLine(v[1..]);
    }
  }

  lemma {:induction false} LabelsOneLine(ls: seq<Label>)
    requires ValidLabels(ls)
    ensures OneLine(LabelsText(ls))
    decreases |ls|
  {
    if ls == [] {
    } else {
      EscapeOneLine(ls[0].value);
      assert IsLabelName(ls[0].name);
      assert OneLine(LabelText(ls[0]));
      LabelsOneLine(ls[1..]);
    }
  }

  /** The only raw newline in a printed sample is its terminator, whatever the label values hold. */
  lemma {:induction false} SampleIsOneLine(name: string, labels: seq<Label>, value: string, timestamp: int)
    requires IsMetricName(name) && ValidLabels(labels) && IsToken(value)
    ensures var s := EntryText(Sample(name, labels, value, timestamp));
      s != "" && s[|s| - 1] == '\n' && OneLine(s[..|s| - 1])
  {
    var s := EntryText(Sample(name, labels, value, timestamp));
    LabelsOneLine(labels);
    IntRoundTrip(timestamp);
    var stamp := if timestamp != 0 then " " + IntText(timestamp) else "";
    hide IntText, ParseInt, LabelsText;
    assert OneLine(stamp);
    assert OneLine(HeadText(name, labels));
    assert s == HeadText(name, labels) + value + stamp + "\n";
    assert s[..|s| - 1] == HeadText(name, labels) + value + stamp;
  }

  // ----- families ------------------------------------------------------------

  /** The names the name checks leave in a collected family. */
  ghost predicate PrintableFamily(f: MetricFamily) {
    IsMetricName(f.name) && forall i | 0 <= i < |f.metric| :: ValidLabels(f.metric[i].labels)
  }

  /** Label names are distinct and leave room for the one the printer adds. */
  ghost predicate DistinctFamily(f: MetricFamily) {
    forall i | 0 <= i < |f.metric| :: RoomForExtra(f.kind, f.metric[i].labels)
  }

  ghost predicate RoomForExtra(kind: MetricType, labels: seq<Label>) {
    && DistinctNames(labels)
    && forall k | 0 <= k < |labels| ::
         (kind == Histogram ==> labels[k].name != "le") && (kind == Summary ==> labels[k].name != "quantile")
  }

  /** A valid sample line of the family; where it is asked for, with pairwise distinct label names. */
  ghost predicate GoodSample(distinct: bool, name: string, e: Entry) {
    e.Sample? && ValidEntry(e) && (distinct ==> DistinctNames(e.labels)) && name <= e.name
  }

  ghost predicate GoodSamples(distinct: bool, name: string, es: seq<Entry>) {
    forall i | 0 <= i < |es| :: GoodSample(distinct, name, es[i])
  }

  lemma {:induction false} NumberIsToken(n: Number)
    ensures IsToken(NumberText(n))
  {
    if n.Int? {
      IntRoundTrip(n.i);
      assert forall k | 0 <= k < |IntText(n.i)| :: IsNumberChar(IntText(n.i)[k]);
    } else {
      DoubleIsToken(n.d);
    }
  }

  lemma {:induction false} DoubleIsToken(d: Double)
    ensures IsToken(DoubleText(d)) && Escape(DoubleText(d)) == DoubleText(d)
  {
    var s := DoubleText(d);
    forall k | 0 <= k < |s| ensures EscapeChar(s[k]) == [s[k]] && NotBlank(s[k]) {
      assert d.Finite? ==> IsNumberChar(d.digits[k]);
    }
    NothingToEscape(s);
  }

  lemma {:induction false} NothingToEscape(s: string)
    requires forall k | 0 <= k < |s| :: EscapeChar(s[k]) == [s[k]]
    ensures Escape(s) == s
  {
    if s == "" {
    } else {
      NothingToEscape(s[1..]);
      assert s == [s[0]] + s[1..];
    }
  }

  lemma {:induction false} NatIsToken(n: nat)
    ensures IsToken(NatText(n))
  {
    NumberIsToken(Int(n));
  }

  lemma {:induction false} SampleGood(distinct: bool, name: string, kind: MetricType, m: ClientMetric, suffix: string,
        extra: seq<Label>, value: string)
    requires IsMetricName(name) && IsToken(value)
    requires ValidLabels(m.labels) && (distinct ==> RoomForExtra(kind, m.labels))
    requires suffix in ["", "_info", "_count", "_sum", "_bucket"]
    requires extra == [] || (|extra| == 1 && extra[0].name == if kind == Histogram then "le" else "quantile")
    requires extra != [] ==> kind == Histogram || kind == Summary
    ensures GoodSample(distinct, name, SampleOf(name, m, suffix, extra, value))
  {
    assert IsMetricName(name + suffix) by {
      assert forall i | 0 <= i < |suffix| :: IsMetricChar(suffix[i]);
    }
    assert IsLabelName("le") && IsLabelName("quantile");
  }

  lemma {:induction false} QuantilesGood(distinct: bool, name: string, m: ClientMetric, qs: seq<QuantileValue>)
    requires IsMetricName(name) && ValidLabels(m.labels) && (distinct ==> RoomForExtra(Summary, m.labels))
    ensures GoodSamples(distinct, name, QuantileEntries(name, m, qs))
  {
    hide GoodSample, ValidLabels, RoomForExtra;
    if qs == [] {
    } else {
      var q := qs[|qs| - 1];
      QuantilesGood(distinct, name, m, qs[..|qs| - 1]);
      DoubleIsToken(q.value);
      SampleGood(distinct, name, Summary, m, "", [Label("quantile", DoubleText(q.quantile))], DoubleText(q.value));
    }
  }

  lemma {:induction false} BucketsGood(distinct: bool, name: string, m: ClientMetric, bs: seq<Bucket>)
    requires IsMetricName(name) && ValidLabels(m.labels) && (distinct ==> RoomForExtra(Histogram, m.labels))
    ensures GoodSamples(distinct, name, BucketEntries(name, m, bs))
  {
    hide GoodSample, ValidLabels, RoomForExtra;
    if bs == [] {
    } else {
      var b := bs[|bs| - 1];
      BucketsGood(distinct, name, m, bs[..|bs| - 1]);
      NatIsToken(b.cumulativeCount);
      var extra := [Label("le", DoubleText(b.upperBound))];
      SampleGood(distinct, name, Histogram, m, "_bucket", extra, NatText(b.cumulativeCount));
    }
  }

  lemma {:induction false} SummaryGood(distinct: bool, name: string, m: ClientMetric)
    requires IsMetricName(name) && ValidLabels(m.labels) && (distinct ==> RoomForExtra(Summary, m.labels))
    ensures GoodSamples(distinct, name, MetricEntries(name, Summary, m))
  {
    hide GoodSample, ValidLabels, RoomForExtra, SampleOf, QuantileEntries;
    NatIsToken(m.summary.sampleCount);
    SampleGood(distinct, name, Summary, m, "_count", [], NatText(m.summary.sampleCount));
    DoubleIsToken(m.summary.sampleSum);
    SampleGood(distinct, name, Summary, m, "_sum", [], DoubleText(m.summary.sampleSum));
    QuantilesGood(distinct, name, m, m.summary.quantile);
  }

  lemma {:induction false} HistogramGood(distinct: bool, name: string, m: ClientMetric)
    requires IsMetricName(name) && ValidLabels(m.labels) && (distinct ==> RoomForExtra(Histogram, m.labels))
    ensures GoodSamples(distinct, name, MetricEntries(name, Histogram, m))
  {
    hide GoodSample, ValidLabels, RoomForExtra, SampleOf, BucketEntries;
    NatIsToken(m.histogram.sampleCount);
    SampleGood(distinct, name, Histogram, m, "_count", [], NatText(m.histogram.sampleCount));
    DoubleIsToken(m.histogram.sampleSum);
    SampleGood(distinct, name, Histogram, m, "_sum", [], DoubleText(m.histogram.sampleSum));
    BucketsGood(distinct, name, m, m.histogram.bucket);
    SampleGood(distinct, name, Histogram, m, "_bucket", [Label("le", "+Inf")], NatText(m.histogram.sampleCount));
  }

  lemma {:induction false} MetricGood(distinct: bool, name: string, kind: MetricType, m: ClientMetric)
    requires IsMetricName(name) && ValidLabels(m.labels) && (distinct ==> RoomForExtra(kind, m.labels))
    ensures GoodSamples(distinct, name, MetricEntries(name, kind, m))
  {
    if kind == Summary {
      SummaryGood(distinct, name, m);
    } else if kind == Histogram {
      HistogramGood(distinct, name, m);
    } else {
      hide GoodSample, ValidLabels, RoomForExtra, SampleOf;
      NumberIsToken(m.counter);
      SampleGood(distinct, name, kind, m, "", [], NumberText(m.counter));
      NumberIsToken(m.gauge);
      SampleGood(distinct, name, kind, m, "", [], NumberText(m.gauge));
      DoubleIsToken(m.info);
      SampleGood(distinct, name, kind, m, "_info", [], DoubleText(m.info));
      DoubleIsToken(m.untyped);
      SampleGood(distinct, name, kind, m, "", [], DoubleText(m.untyped));
    }
  }

  lemma {:induction false} MetricsGood(distinct: bool, name: string, kind: MetricType, ms: seq<ClientMetric>)
    requires IsMetricName(name)
    requires forall i | 0 <= i < |ms| :: ValidLabels(ms[i].labels) && (distinct ==> RoomForExtra(kind, ms[i].labels))
    ensures GoodSamples(distinct, name, MetricsEntries(name, kind, ms))
  {
    hide GoodSample, ValidLabels, RoomForExtra, MetricEntries;
    if ms == [] {
    } else {
      MetricsGood(distinct, name, kind, ms[..|ms| - 1]);
      MetricGood(distinct, name, kind, ms[|ms| - 1]);
    }
  }

  ghost predicate GoodEntry(distinct: bool, e: Entry) {
    ValidEntry(e) && (distinct && e.Sample? ==> DistinctNames(e.labels))
  }

  ghost predicate GoodEntries(distinct: bool, es: seq<Entry>) {
    forall i | 0 <= i < |es| :: GoodEntry(distinct, es[i])
  }

  ghost predicate AllFit(es: seq<Entry>) {
    forall i | 0 <= i < |es| :: HelpFits(es[i])
  }

  function TopEntries(f: MetricFamily): seq<Entry> {
    (if f.help != "" then [HelpLine(f.name, f.help)] else []) + [TypeLine(f.name, TypeWord(f.kind))]
  }

  lemma {:induction false} TopGood(distinct: bool, f: MetricFamily)
    requires IsMetricName(f.name)
    ensures GoodEntries(distinct, TopEntries(f)) && (AllFit(TopEntries(f)) <==> FitsLine(f.help))
  {
    hide FitsLine;
    assert IsToken(TypeWord(f.kind));
    if f.help != "" {
      assert TopEntries(f)[0] == HelpLine(f.name, f.help);
      assert HelpFits(TopEntries(f)[0]) <==> FitsLine(f.help);
    } else {
      EmptyFits();
    }
  }

  lemma {:induction false} EmptyFits()
    ensures FitsLine("")
  {
  }

  lemma {:induction false} SamplesFit(distinct: bool, name: string, es: seq<Entry>)
    requires GoodSamples(distinct, name, es)
    ensures GoodEntries(distinct, es) && AllFit(es)
  {
    forall i | 0 <= i < |es| ensures GoodEntry(distinct, es[i]) && HelpFits(es[i]) {
      assert GoodSample(distinct, name, es[i]);
    }
  }

  lemma {:induction false} EntriesConcat(distinct: bool, a: seq<Entry>, b: seq<Entry>)
    ensures GoodEntries(distinct, a) && GoodEntries(distinct, b) ==> GoodEntries(distinct, a + b)
    ensures AllFit(a + b) <==> AllFit(a) && AllFit(b)
  {
    hide GoodEntry, HelpFits;
    AllOfConcat(a, b, HelpFits);
  }

  /**
   What a family is printed as: help, type, and valid samples. Their label names are pairwise
   distinct if those of the family's metrics are, and leave room for the extra one.
   */
  lemma {:induction false} FamilyGood(distinct: bool, f: MetricFamily)
    requires PrintableFamily(f) && (distinct ==> DistinctFamily(f))
    ensures GoodEntries(distinct, FamilyEntries(f)) && (AllFit(FamilyEntries(f)) <==> FitsLine(f.help))
  {
    MetricsGood(distinct, f.name, f.kind, f.metric);
    hide MetricsEntries, RoomForExtra, ValidLabels, GoodSamples, GoodEntries, AllFit, FitsLine;
    var samples := MetricsEntries(f.name, f.kind, f.metric);
    assert FamilyEntries(f) == TopEntries(f) + samples;
    TopGood(distinct, f);
    SamplesFit(distinct, f.name, samples);
    EntriesConcat(distinct, TopEntries(f), samples);
  }

  lemma {:induction false} EntriesGood(fs: seq<MetricFamily>)
    requires forall i | 0 <= i < |fs| :: PrintableFamily(fs[i])
    ensures GoodEntries(false, Entries(fs))
    ensures AllFit(Entries(fs)) <==> forall i | 0 <= i < |fs| :: FitsLine(fs[i].help)
  {
    hide FamilyEntries, PrintableFamily, GoodEntry, HelpFits, FitsLine;
    if fs == [] {
    } else {
      var init, last := fs[..|fs| - 1], fs[|fs| - 1];
      EntriesGood(init);
      FamilyGood(false, last);
      EntriesConcat(false, Entries(init), FamilyEntries(last));
      assert fs == init + [last];
    }
  }

  lemma {:induction false} AllOfConcat<T(!new)>(a: seq<T>, b: seq<T>, p: T -> bool)
    ensures (forall i | 0 <= i < |a + b| :: p((a + b)[i]))
      <==> (forall i | 0 <= i < |a| :: p(a[i])) && (forall i | 0 <= i < |b| :: p(b[i]))
  {
    if forall i | 0 <= i < |a + b| :: p((a + b)[i]) {
      forall i | 0 <= i < |a| ensures p(a[i]) {
        assert a[i] == (a + b)[i];
      }
      forall i | 0 <= i < |b| ensures p(b[i]) {
        assert b[i] == (a + b)[|a| + i];
      }
    }
  }

  /**
   A whole scrape reads back as what was printed exactly when no help text has a newline or a
   backslash in it, or a blank or tab at either end.
   */
  lemma {:induction false} ScrapeRoundTrip(fs: seq<MetricFamily>)
    requires forall i | 0 <= i < |fs| :: PrintableFamily(fs[i])
    ensures Parse(Text(Entries(fs))) == Document(Entries(fs)) <==> forall i | 0 <= i < |fs| :: FitsLine(fs[i].help)
  {
    EntriesGood(fs);
    hide Entries, HelpFits, ValidEntry, FitsLine, Text, Parse, PrintableFamily;
    assert forall i | 0 <= i < |Entries(fs)| :: GoodEntry(false, Entries(fs)[i]);
    DocumentRoundTrip(Entries(fs));
  }

  lemma {:induction false} EscapeUndone()
    ensures Unescape(Trim("a\\nb")) == Some("a\nb")
  {
    var s := "a\\nb";
    assert TrimStart(s) == s && TrimEnd(s) == s;
    assert s[1..] == "\\nb" && "\\nb"[2..] == "b" && "b"[1..] == "";
    UnescapeShortens("b");
    assert Unescape("b") == Some("b");
    assert ['\n'] + "b" == "\nb" && ['a'] + "\nb" == "a\nb";
    assert Unescape("\\nb") == PrependTo('\n', Unescape("b"));
    assert Unescape(s) == PrependTo('a', Unescape("\\nb"));
  }

  /** A help text with a backslash in it: the family x with help a\nb is read back with a newline between a and b. */
  lemma {:induction false} HelpMisread()
    ensures var f := MetricFamily("x", "a\\nb", Counter, []);
      && PrintableFamily(f) && DistinctFamily(f)
      && Parse(Text(Entries([f]))) == Document([HelpLine("x", "a\nb"), TypeLine("x", "counter")])
  {
    EscapeUndone();
    hide Entries, Parse, Text, Unescape, Trim;
    HelpMisreadAs(MetricFamily("x", "a\\nb", Counter, []), "a\nb");
  }

  /** What is read from a family without metrics whose help text is one line. */
  lemma {:induction false} HelpMisreadAs(f: MetricFamily, help: string)
    requires IsMetricName(f.name) && f.metric == [] && f.help != ""
    requires OneLine(f.help) && Unescape(Trim(f.help)) == Some(help)
    ensures Parse(Text(Entries([f]))) == Document([HelpLine(f.name, help)] + [TypeLine(f.name, TypeWord(f.kind))])
  {
    var kind := TypeLine(f.name, TypeWord(f.kind));
    assert IsToken(TypeWord(f.kind));
    OneFamily(f);
    NameIsToken(f.name);
    assert ValidEntry(kind) && HelpFits(kind);
    hide *;
    DocumentParses([kind]);
    HelpRead(f.name, f.help, help, [kind]);
  }

  lemma {:induction false} OneFamily(f: MetricFamily)
    requires f.help != "" && f.metric == []
    ensures Entries([f]) == [HelpLine(f.name, f.help)] + [TypeLine(f.name, TypeWord(f.kind))]
  {
    assert [f][..0] == [];
    assert Entries([f]) == Entries([]) + FamilyEntries(f);
  }

  lemma {:induction false} HelpRead(name: string, text: string, help: string, es: seq<Entry>)
    requires IsToken(name) && OneLine(text) && Unescape(Trim(text)) == Some(help)
    requires Parse(Text(es)) == Document(es)
    ensures Parse(Text([HelpLine(name, text)] + es)) == Document([HelpLine(name, help)] + es)
  {
    var all := [HelpLine(name, text)] + es;
    assert EntryText(HelpLine(name, text)) == "# HELP " + name + " " + text + "\n";
    hide ParseEntry, Unescape, Trim;
    TextCons(all);
    EntryTextNonempty(all[0]);
    HelpParts(name, text, Text(es));
    assert all[1..] == es;
  }

  /** Integer counters and gauges survive the trip: the value read back from the sample is the one collected. */
  lemma {:induction false} IntegerSample(name: string, kind: MetricType, m: ClientMetric, i: int, rest: string)
    requires IsMetricName(name) && ValidLabels(m.labels)
    requires (kind == Counter && m.counter == Int(i)) || (kind == Gauge && m.gauge == Int(i))
    ensures var p := ParseEntry(Text(MetricEntries(name, kind, m)) + rest);
      && p.Done? && p.rest == rest && p.value.Sample?
      && p.value.name == name && p.value.labels == m.labels && p.value.timestamp == m.timestampMs
      && ParseInt(p.value.value) == AnInt(i)
  {
    var e := SampleOf(name, m, "", [], IntText(i));
    assert name + "" == name && m.labels + [] == m.labels;
    NumberIsToken(Int(i));
    IntRoundTrip(i);
    TextCons([e]);
    hide ParseEntry, EntryText, ParseInt, IntText;
    assert Text([e]) == EntryText(e) + Text([]);
    assert EntryText(e) + "" == EntryText(e);
    EntryRoundTrip(e, rest);
  }

  /**
   The last line of a printed histogram is its infinite bucket, and it shows the same number
   as the count line exactly when the collected buckets, if they end infinite, count every sample.
   */
  lemma {:induction false} HistogramEndsInfinite(name: string, m: ClientMetric)
    ensures var es, bs := MetricEntries(name, Histogram, m), m.histogram.bucket;
      var last := es[|es| - 1];
      && last.name == name + "_bucket" && last.labels == m.labels + [Label("le", "+Inf")]
      && es[0].name == name + "_count" && es[0].labels == m.labels
      && (last.value == es[0].value
          <==> bs == [] || bs[|bs| - 1].upperBound != PosInf || bs[|bs| - 1].cumulativeCount == m.histogram.sampleCount)
  {
    var bs := m.histogram.bucket;
    NatRoundTrip(m.histogram.sampleCount);
    if bs != [] {
      NatRoundTrip(bs[|bs| - 1].cumulativeCount);
    }
    assert m.labels + [] == m.labels;
  }
}
