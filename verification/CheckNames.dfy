/** The name checks of core/src/check_names.cc. */
module CheckNames {
  import opened Metrics

  predicate IsAlphaNumeric(c: char) {
    '0' <= c <= '9' || 'a' <= c <= 'z' || 'A' <= c <= 'Z'
  }

  predicate IsDigit(c: char) {
    '0' <= c <= '9'
  }

  predicate IsMetricChar(c: char) {
    IsAlphaNumeric(c) || c == '_' || c == ':'
  }

  predicate IsLabelChar(c: char) {
    IsAlphaNumeric(c) || c == '_'
  }

  /** Length of the longest prefix of s whose characters are all accepted; std::find_if_not stops there. */
  function Span(s: string, accepts: char -> bool): (n: nat)
    ensures n <= |s|
  {
    if s == "" || !accepts(s[0]) then 0 else 1 + Span(s[1..], accepts)
  }

  /** name.compare(0, 2, "__") == 0 compares at most two characters. */
  predicate NameStartsValid(name: string) {
    name != "" && !IsDigit(name[0]) && name[..if |name| < 2 then |name| else 2] != "__"
  }

  predicate CheckMetricName(name: string) {
    NameStartsValid(name) && Span(name, IsMetricChar) == |name|
  }

  predicate CheckLabelName(name: string, kind: MetricType) {
    && NameStartsValid(name)
    && !((kind == Histogram && name == "le") || (kind == Summary && name == "quantile"))
    && Span(name, IsLabelChar) == |name|
  }

  // ----- what the checks accept ----------------------------------------------

  /** [a-zA-Z_:][a-zA-Z0-9_:]* */
  ghost predicate IsMetricName(name: string) {
    name != "" && !IsDigit(name[0]) && forall i | 0 <= i < |name| :: IsMetricChar(name[i])
  }

  /** [a-zA-Z_][a-zA-Z0-9_]* */
  ghost predicate IsLabelName(name: string) {
    name != "" && !IsDigit(name[0]) && forall i | 0 <= i < |name| :: IsLabelChar(name[i])
  }

  lemma {:induction false} SpanAll(s: string, accepts: char -> bool)
    ensures Span(s, accepts) == |s| <==> forall i | 0 <= i < |s| :: accepts(s[i])
  {
    if s == "" {
    } else {
      SpanAll(s[1..], accepts);
      assert forall i | 0 <= i < |s| :: s[i] == if i == 0 then s[0] else s[1..][i - 1];
    }
  }

  lemma {:induction false} SpanStops(a: string, b: string, accepts: char -> bool)
    requires forall i | 0 <= i < |a| :: accepts(a[i])
    requires b != "" && !accepts(b[0])
    ensures Span(a + b, accepts) == |a|
  {
    if a == "" {
      assert a + b == b;
    } else {
      assert (a + b)[1..] == a[1..] + b;
      SpanStops(a[1..], b, accepts);
    }
  }

  lemma {:induction false} StartsReserved(name: string)
    requires name != ""
    ensures name[..if |name| < 2 then |name| else 2] == "__" <==> "__" <= name
  {
  }

  /** The check and the grammar its documentation gives differ exactly on names that start with two underscores. */
  lemma {:induction false} MetricNameExactly(name: string)
    ensures CheckMetricName(name) <==> IsMetricName(name) && !("__" <= name)
  {
    SpanAll(name, IsMetricChar);
    if name != "" {
      StartsReserved(name);
    }
  }

  lemma {:induction false} LabelNameExactly(name: string, kind: MetricType)
    ensures CheckLabelName(name, kind)
      <==> IsLabelName(name) && !("__" <= name)
           && !(kind == Histogram && name == "le") && !(kind == Summary && name == "quantile")
  {
    SpanAll(name, IsLabelChar);
    if name != "" {
      StartsReserved(name);
    }
  }
}
