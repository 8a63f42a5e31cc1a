/**
 A reader for the text format, following "Text format details" of the Prometheus exposition
 formats document. In HELP and TYPE lines it takes any number of blanks and tabs around the
 name and at the end, and it undoes the escape sequences of a help text. In sample lines it
 asks for the single blanks the printer writes, and it knows no other comments.
 */
module TextParser {
  import opened Wrappers
  import opened Metrics
  import opened CheckNames
  import opened TextFormat

  datatype Parsed<+T> = Fail | Done(value: T, rest: string)

  // ----- numbers -------------------------------------------------------------

  function ParseNat(s: string): (n: int)
    ensures n >= -1
  {
    if s == "" || !IsDigit(s[|s| - 1]) then -1
    else
      var last := (s[|s| - 1] - '0') as int;
      if |s| == 1 then last
      else
        var high := ParseNat(s[..|s| - 1]);
        if high < 0 then -1 else 10 * high + last
  }

  datatype MaybeInt = NotAnInt | AnInt(i: int)

  function ParseInt(s: string): MaybeInt {
    var negative := s != "" && s[0] == '-';
    var n := ParseNat(if negative then s[1..] else s);
    if n < 0 then NotAnInt else AnInt(if negative then -n else n)
  }

  /** None when s is no double; finite ones are kept as they are spelled. */
  function ParseDouble(s: string): Option<Double> {
    if s == "Nan" then Some(NaN)
    else if s == "-Inf" then Some(NegInf)
    else if s == "+Inf" then Some(PosInf)
    else if s != "" && forall i | 0 <= i < |s| :: IsNumberChar(s[i]) then Some(Finite(s))
    else None
  }

  // ----- labels --------------------------------------------------------------

  /** A label value up to its closing quote, with the three escape sequences undone. */
  function ParseEscaped(s: string): Parsed<string> {
    if s == "" || s[0] == '\n' then Fail
    else if s[0] == '"' then Done("", s[1..])
    else if s[0] == '\\' then
      if |s| < 2 then Fail
      else if s[1] == 'n' then Prepend('\n', ParseEscaped(s[2..]))
      else if s[1] == '\\' || s[1] == '"' then Prepend(s[1], ParseEscaped(s[2..]))
      else Fail
    else Prepend(s[0], ParseEscaped(s[1..]))
  }

  function Prepend(c: char, p: Parsed<string>): Parsed<string> {
    match p
    case Fail => Fail
    case Done(v, rest) => Done([c] + v, rest)
  }

  function ParseLabel(s: string): (p: Parsed<Label>) {
    var n := Span(s, IsLabelChar);
    if n == 0 || IsDigit(s[0]) || !("=\"" <= s[n..]) then Fail
    else
      match ParseEscaped(s[n + 2..])
      case Fail => Fail
      case Done(v, rest) => Done(Label(s[..n], v), rest)
  }

  /** Labels separated by commas, up to the closing brace. */
  function ParseLabels(s: string): Parsed<seq<Label>>
    decreases |s|
  {
    match ParseLabel(s)
    case Fail => Fail
    case Done(l, rest) =>
      if rest == "" || |rest| >= |s| then Fail
      else if rest[0] == '}' then Done([l], rest[1..])
      else if rest[0] == ',' then
        match ParseLabels(rest[1..])
        case Fail => Fail
        case Done(ls, rest') => Done([l] + ls, rest')
      else Fail
  }

  // ----- lines ---------------------------------------------------------------

  predicate IsBlank(c: char) {
    c == ' ' || c == '\t'
  }

  predicate NotBlank(c: char) {
    !IsBlank(c) && c != '\n'
  }

  predicate NotNewline(c: char) {
    c != '\n'
  }

  function ParseHead(s: string): Parsed<(string, seq<Label>)> {
    var n := Span(s, IsMetricChar);
    if n == 0 || IsDigit(s[0]) || n == |s| then Fail
    else if s[n] == ' ' then Done((s[..n], []), s[n + 1..])
    else if s[n] == '{' then
      match ParseLabels(s[n + 1..])
      case Fail => Fail
      case Done(ls, rest) => if " " <= rest then Done((s[..n], ls), rest[1..]) else Fail
    else Fail
  }

  /** An optional timestamp, zero when absent, and the end of the line. */
  function ParseTail(s: string): Parsed<int> {
    if "\n" <= s then Done(0, s[1..])
    else if " " <= s then
      var n := Span(s[1..], NotBlank);
      match ParseInt(s[1..][..n])
      case NotAnInt => Fail
      case AnInt(i) => if "\n" <= s[1..][n..] then Done(i, s[1..][n..][1..]) else Fail
    else Fail
  }

  function ParseSample(s: string): Parsed<Entry> {
    match ParseHead(s)
    case Fail => Fail
    case Done((name, labels), rest) =>
      var n := Span(rest, NotBlank);
      if n == 0 then Fail
      else
        match ParseTail(rest[n..])
        case Fail => Fail
        case Done(timestamp, rest') => Done(Sample(name, labels, rest[..n], timestamp), rest')
  }

  /** s without the blanks and tabs at its start. */
  function TrimStart(s: string): (r: string)
    ensures |r| <= |s| && (r != "" ==> !IsBlank(r[0]))
    ensures s == "" || !IsBlank(s[0]) <==> r == s
  {
    if s != "" && IsBlank(s[0]) then TrimStart(s[1..]) else s
  }

  /** s without the blanks and tabs at its end. */
  function TrimEnd(s: string): (r: string)
    ensures r <= s
    ensures s == "" || !IsBlank(s[|s| - 1]) <==> r == s
  {
    if s != "" && IsBlank(s[|s| - 1]) then TrimEnd(s[..|s| - 1]) else s
  }

  function Trim(s: string): string {
    TrimEnd(TrimStart(s))
  }

  /** The rest of a line after "# HELP " or "# TYPE ": a name, and what follows it up to the end of the line. */
  function ParseComment(s: string): Parsed<(string, string)> {
    var m := Span(s, NotNewline);
    var line := TrimStart(s[..m]);
    var n := Span(line, NotBlank);
    if m == |s| || n == 0 then Fail else Done((line[..n], Trim(line[n..])), s[m + 1..])
  }

  /** A help text: a backslash starts one of the escape sequences for itself and for a line feed. */
  function Unescape(s: string): Option<string> {
    if s == "" then Some("")
    else if s[0] == '\\' then
      if |s| < 2 || (s[1] != 'n' && s[1] != '\\') then None
      else PrependTo(if s[1] == 'n' then '\n' else '\\', Unescape(s[2..]))
    else PrependTo(s[0], Unescape(s[1..]))
  }

  function PrependTo(c: char, text: Option<string>): Option<string> {
    if text.None? then None else Some([c] + text.value)
  }

  function ParseEntry(s: string): Parsed<Entry> {
    if "# HELP " <= s then
      match ParseComment(s[7..])
      case Fail => Fail
      case Done((name, text), rest) =>
        match Unescape(text)
        case None => Fail
        case Some(help) => Done(HelpLine(name, help), rest)
    else if "# TYPE " <= s then
      match ParseComment(s[7..])
      case Fail => Fail
      case Done((name, text), rest) => Done(TypeLine(name, text), rest)
    else ParseSample(s)
  }

  datatype Document = Malformed | Document(entries: seq<Entry>)

  function Parse(s: string): Document
    decreases |s|
  {
    if s == "" then Document([])
    else
      match ParseEntry(s)
      case Fail => Malformed
      case Done(e, rest) =>
        if |rest| >= |s| then Malformed
        else
          match Parse(rest)
          case Malformed => Malformed
          case Document(es) => Document([e] + es)
  }
}
