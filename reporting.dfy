/**
 * The report an audit prints: one line per result between a fixed header
 * and a summary, joined with newlines. The JSON rendering is a library call
 * outside the model; its text is an input of `GenerateReport`.
 */
module Reporting {
  import opened Results
  import opened Types
  import opened Numbers
  import Text

  /** The signed difference: `+` added only when it is positive; a negative one carries its own `-`. */
  function DifferenceText(d: int): (t: string)
    ensures |t| >= 1
    ensures t[0] == '+' <==> d > 0
    ensures t[0] == '-' <==> d < 0
  {
    (if d > 0 then "+" else "") + IntToString(d)
  }

  /** The signed difference reads back as the difference. */
  lemma DifferenceTextRoundTrip(d: int)
    ensures ParseNumber(DifferenceText(d)) == Some(Decimal(d, 0))
  {
    if d > 0 {
      PlusSignRoundTrip(d);
    } else {
      assert DifferenceText(d) == IntToString(d);
      IntToStringRoundTrip(d);
    }
  }

  /** `formatResultLine`: the item, a colon, then what the result says. */
  function FormatResultLine(r: ReconciliationResult): string {
    r.item + ": " + Verdict(r)
  }

  /** What a result line says after the item's colon. */
  function Verdict(r: ReconciliationResult): string {
    match r
    case Ok(_, _, _) =>
      "OK"
    case Discrepancy(_, expected, actual, difference) =>
      "DISCREPANCY " + DifferenceText(difference) + Expectation(expected, actual)
    case Unknown(_, reason) =>
      "UNKNOWN (" + reason + ")"
  }

  /** The tail of a discrepancy line: what was expected and what was counted. */
  function Expectation(expected: int, actual: int): string {
    " (expected: " + IntToString(expected) + ", actual: " + IntToString(actual) + ")"
  }

  /** The status a report line names for `item`, read back from the word after the colon. */
  function LineStatus(line: string, item: string): Option<Status> {
    var n := |item| + 2;
    if |line| < n || line[..n] != item + ": " then None
    else
      var rest := line[n..];
      if rest == "OK" then Some(OkStatus)
      else if |rest| >= 12 && rest[..12] == "DISCREPANCY " then Some(DiscrepancyStatus)
      else if |rest| >= 9 && rest[..9] == "UNKNOWN (" then Some(UnknownStatus)
      else None
  }

  /** Every line names its result's status, so the three kinds of line cannot be confused. */
  lemma LineStatusOfFormat(r: ReconciliationResult)
    ensures LineStatus(FormatResultLine(r), r.item) == Some(StatusOf(r))
  {
    var line := FormatResultLine(r);
    var v := Verdict(r);
    assert line[..|r.item| + 2] == r.item + ": ";
    assert line[|r.item| + 2..] == v;
    match r
    case Ok(_, _, _) =>
    case Discrepancy(_, _, _, _) =>
      assert v[..12] == "DISCREPANCY ";
    case Unknown(_, _) =>
      assert v[..9] == "UNKNOWN (";
      assert v[0] == 'U';
  }

  /**
   * The sign rule: after `DISCREPANCY ` comes the difference, starting with
   * `+` exactly when it is positive, and that text reads back as the
   * difference.
   */
  lemma DiscrepancySign(item: string, expected: int, actual: int, difference: int)
    ensures var v := Verdict(Discrepancy(item, expected, actual, difference));
            var t := DifferenceText(difference);
            |v| >= 12 + |t| && v[..12] == "DISCREPANCY " && v[12..12 + |t|] == t
            && (v[12] == '+' <==> difference > 0)
            && ParseNumber(v[12..12 + |t|]) == Some(Decimal(difference, 0))
            && v[12 + |t|..] == Expectation(expected, actual)
  {
    var t := DifferenceText(difference);
    var v := Verdict(Discrepancy(item, expected, actual, difference));
    var signed := "DISCREPANCY " + t;
    assert v == signed + Expectation(expected, actual);
    assert v[..|signed|] == signed;
    assert signed[12..] == t;
    assert v[12..12 + |t|] == t;
    assert v[12 + |t|..] == Expectation(expected, actual);
    DifferenceTextRoundTrip(difference);
  }

  /**
   * The tail of a discrepancy line: the expected and the counted quantity,
   * each reading back as its number, between `(expected: `, `, actual: `
   * and `)`.
   */
  lemma ExpectationNumbers(expected: int, actual: int)
    ensures var e := Expectation(expected, actual);
            var x := IntToString(expected); var y := IntToString(actual);
            |e| == 23 + |x| + |y| && e[..12] == " (expected: "
            && ParseNumber(e[12..12 + |x|]) == Some(Decimal(expected, 0))
            && e[12 + |x|..22 + |x|] == ", actual: "
            && ParseNumber(e[22 + |x|..22 + |x| + |y|]) == Some(Decimal(actual, 0))
            && e[|e| - 1] == ')'
  {
    ExpectationAt(expected, actual, " (expected: ", ", actual: ", ")");
    IntToStringRoundTrip(expected);
    IntToStringRoundTrip(actual);
  }

  // The three literals arrive as parameters for the same reason as in `DiscrepancyPartWordsAt`.
  lemma ExpectationAt(expected: int, actual: int, open: string, mid: string, close: string)
    requires open == " (expected: " && mid == ", actual: " && close == ")"
    ensures var e := Expectation(expected, actual);
            var x := IntToString(expected); var y := IntToString(actual);
            |e| == 23 + |x| + |y| && e[..12] == open && e[12..12 + |x|] == x
            && e[12 + |x|..22 + |x|] == mid && e[22 + |x|..22 + |x| + |y|] == y && e[|e| - 1] == ')'
  {
    var x := IntToString(expected);
    var y := IntToString(actual);
    assert Expectation(expected, actual) == open + x + mid + y + close;
    FivePieces(open, x, mid, y, close);
  }

  /** Where each of five concatenated pieces sits. */
  lemma FivePieces<T>(a: seq<T>, x: seq<T>, b: seq<T>, y: seq<T>, c: seq<T>)
    ensures var e := a + x + b + y + c; var k := |a| + |x| + |b|;
            |e| == k + |y| + |c| && e[..|a|] == a && e[|a|..|a| + |x|] == x
            && e[|a| + |x|..k] == b && e[k..k + |y|] == y && e[k + |y|..] == c
  {
  }

  /** An unknown line carries the reason verbatim between its parentheses. */
  lemma UnknownReason(item: string, reason: string)
    ensures var v := Verdict(Unknown(item, reason));
            |v| == |reason| + 10 && v[..9] == "UNKNOWN (" && v[9..|v| - 1] == reason && v[|v| - 1] == ')'
  {
    var v := Verdict(Unknown(item, reason));
    assert v[..|reason| + 9] == "UNKNOWN (" + reason;
  }

  /** `N discrepancy found` or `N discrepancies found`. */
  function DiscrepancyPart(n: nat): string {
    NatToString(n) + " discrepanc" + (if n == 1 then "y" else "ies") + " found"
  }

  /** `N item with missing data` or `N items with missing data`. */
  function UnknownPart(n: nat): string {
    NatToString(n) + " item" + (if n == 1 then "" else "s") + " with missing data"
  }

  /**
   * Pluralisation of the discrepancy part: its first word reads back as the
   * count, and the noun that follows is singular exactly when the count is 1.
   */
  lemma DiscrepancyPartWords(n: nat)
    ensures var words := Text.Split(DiscrepancyPart(n), ' ');
            |words| == 3 && ParseNumber(words[0]) == Some(Decimal(n, 0))
            && (words[1] == "discrepancy" <==> n == 1) && (words[1] == "discrepancies" <==> n != 1)
            && words[2] == "found"
  {
    DiscrepancyPartWordsAt(n, "found");
  }

  // The last word arrives as a parameter fixed by the precondition, which keeps the
  // verifier from unfolding the literal while it reasons about the split.
  lemma DiscrepancyPartWordsAt(n: nat, tail: string)
    requires tail == "found"
    ensures var words := Text.Split(DiscrepancyPart(n), ' ');
            |words| == 3 && ParseNumber(words[0]) == Some(Decimal(n, 0))
            && (words[1] == "discrepancy" <==> n == 1) && (words[1] == "discrepancies" <==> n != 1)
            && words[2] == tail
  {
    var digits := NatToString(n);
    var noun := if n == 1 then "discrepancy" else "discrepancies";
    DiscrepancyPartShape(n, digits, tail);
    NoSpaceInDigits(digits);
    assert ' ' !in noun && ' ' !in tail;
    SplitTwoWords(digits, noun, tail);
    Text.SplitWithout(tail, ' ');
    NatToStringRoundTrip(n);
  }

  lemma DiscrepancyPartShape(n: nat, digits: string, tail: string)
    requires digits == NatToString(n) && tail == "found"
    ensures DiscrepancyPart(n) == digits + [' '] + ((if n == 1 then "discrepancy" else "discrepancies") + [' '] + tail)
  {
  }

  /**
   * Pluralisation of the missing-data part: its first word reads back as
   * the count, and it says `item` exactly when the count is 1.
   */
  lemma UnknownPartWords(n: nat)
    ensures var words := Text.Split(UnknownPart(n), ' ');
            |words| == 5 && ParseNumber(words[0]) == Some(Decimal(n, 0))
            && (words[1] == "item" <==> n == 1) && (words[1] == "items" <==> n != 1)
            && words[2..] == ["with", "missing", "data"]
  {
    UnknownPartWordsAt(n, "with", "missing", "data");
  }

  // The closing words arrive as parameters for the same reason as in `DiscrepancyPartWordsAt`.
  lemma UnknownPartWordsAt(n: nat, w1: string, w2: string, w3: string)
    requires w1 == "with" && w2 == "missing" && w3 == "data"
    ensures var words := Text.Split(UnknownPart(n), ' ');
            |words| == 5 && ParseNumber(words[0]) == Some(Decimal(n, 0))
            && (words[1] == "item" <==> n == 1) && (words[1] == "items" <==> n != 1)
            && words[2..] == [w1, w2, w3]
  {
    var digits := NatToString(n);
    var noun := if n == 1 then "item" else "items";
    var tail := w1 + [' '] + (w2 + [' '] + w3);
    UnknownPartShape(n, digits, tail);
    NoSpaceInDigits(digits);
    assert ' ' !in noun && ' ' !in w1 && ' ' !in w2 && ' ' !in w3;
    SplitTwoWords(digits, noun, tail);
    SplitTwoWords(w1, w2, w3);
    Text.SplitWithout(w3, ' ');
    NatToStringRoundTrip(n);
  }

  /** Two words, each free of spaces, in front of the rest of a sentence. */
  lemma SplitTwoWords(first: string, second: string, tail: string)
    requires ' ' !in first && ' ' !in second
    ensures Text.Split(first + [' '] + (second + [' '] + tail), ' ') == [first, second] + Text.Split(tail, ' ')
  {
    Text.SplitAt(first, ' ', second + [' '] + tail);
    Text.SplitAt(second, ' ', tail);
  }

  lemma UnknownPartShape(n: nat, digits: string, tail: string)
    requires digits == NatToString(n) && tail == "with missing data"
    ensures UnknownPart(n) == digits + [' '] + ((if n == 1 then "item" else "items") + [' '] + tail)
  {
    var noun := if n == 1 then "item" else "items";
    assert " item" + (if n == 1 then "" else "s") == [' '] + noun;
    assert " with missing data" == [' '] + tail;
  }

  lemma NoSpaceInDigits(digits: string)
    requires AllDigits(digits)
    ensures ' ' !in digits
  {
    assert forall i :: 0 <= i < |digits| ==> IsDigit(digits[i]);
  }

  /** The non-empty summary parts: discrepancies first, then missing data. */
  function SummaryParts(s: AuditSummary): (parts: seq<string>)
    ensures |parts| == (if s.discrepancyCount > 0 then 1 else 0) + (if s.unknownCount > 0 then 1 else 0)
    ensures s.discrepancyCount > 0 ==> parts[0] == DiscrepancyPart(s.discrepancyCount)
    ensures s.unknownCount > 0 ==> parts[|parts| - 1] == UnknownPart(s.unknownCount)
  {
    (if s.discrepancyCount > 0 then [DiscrepancyPart(s.discrepancyCount)] else [])
    + (if s.unknownCount > 0 then [UnknownPart(s.unknownCount)] else [])
  }

  // Written as three literals only to keep proofs about its characters cheap; it is one sentence.
  const AllOkSummary: string := "Summary: " + "All items OK! " + "No discrepancies found."

  function SummaryLine(s: AuditSummary): string {
    if s.discrepancyCount == 0 && s.unknownCount == 0 then AllOkSummary
    else "Summary: " + Text.Join(SummaryParts(s), ", ")
  }

  /**
   * The all-OK summary appears exactly when there is neither a discrepancy
   * nor an item with missing data; otherwise the summary lists a count.
   */
  lemma SummaryAllOk(s: AuditSummary)
    ensures SummaryLine(s) == AllOkSummary <==> s.discrepancyCount == 0 && s.unknownCount == 0
    ensures SummaryLine(s) != AllOkSummary ==> |SummaryLine(s)| > 9 && IsDigit(SummaryLine(s)[9])
  {
    if s.discrepancyCount > 0 || s.unknownCount > 0 {
      var parts := SummaryParts(s);
      var first := if s.discrepancyCount > 0 then NatToString(s.discrepancyCount) else NatToString(s.unknownCount);
      assert parts[0][0] == first[0];
      Text.JoinHead(parts, ", ");
      var line := SummaryLine(s);
      assert line[9] == first[0];
      assert AllOkSummary[9] == 'A';
    }
  }

  const Header: seq<string> := ["Zoo Food Audit Report", "=====================", ""]

  /** One line per result, in result order. */
  function ResultLines(results: seq<ReconciliationResult>): (lines: seq<string>)
    ensures |lines| == |results|
    ensures forall i :: 0 <= i < |results| ==> lines[i] == FormatResultLine(results[i])
  {
    seq(|results|, i requires 0 <= i < |results| => FormatResultLine(results[i]))
  }

  /** The lines of the text report, in the order `generateTextReport` pushes them. */
  function ReportLines(report: AuditReport): seq<string> {
    Header + ResultLines(report.results)
    + [""] + [SummaryLine(report.summary)] + [""] + ["Report generated: " + report.timestamp.iso]
  }

  /**
   * The report's layout: the three header lines, then one line per result
   * in result order, a blank line, the summary, a blank line and the
   * generation time.
   */
  lemma ReportLayout(report: AuditReport)
    ensures var lines := ReportLines(report); var n := |report.results|;
            |lines| == n + 7 && lines[..3] == Header
            && (forall i :: 0 <= i < n ==> lines[3 + i] == FormatResultLine(report.results[i]))
            && lines[n + 3] == "" && lines[n + 4] == SummaryLine(report.summary) && lines[n + 5] == ""
            && lines[n + 6] == "Report generated: " + report.timestamp.iso
  {
    assert |Header| == 3;
    LayoutIndex(Header, ResultLines(report.results), SummaryLine(report.summary), "Report generated: " + report.timestamp.iso);
  }

  /** Where each part of the report's lines sits among them. */
  lemma LayoutIndex(header: seq<string>, results: seq<string>, summary: string, generated: string)
    ensures var lines := header + results + [""] + [summary] + [""] + [generated]; var n := |header| + |results|;
            |lines| == n + 4 && lines[..|header|] == header
            && (forall i :: 0 <= i < |results| ==> lines[|header| + i] == results[i])
            && lines[n] == "" && lines[n + 1] == summary && lines[n + 2] == "" && lines[n + 3] == generated
  {
    var lines := header + results + [""] + [summary] + [""] + [generated];
    assert lines[..|header|] == header;
  }

  /** `generateTextReport`'s text: the lines joined with newlines. */
  function TextReport(report: AuditReport): string {
    Text.Join(ReportLines(report), "\n")
  }

  /** `generateTextReport`: the header, a line per result, the summary, the generation time. */
  method GenerateTextReport(report: AuditReport) returns (text: string)
    ensures text == TextReport(report)
  {
    var lines: seq<string> := [];
    lines := lines + ["Zoo Food Audit Report"];
    lines := lines + ["====================="];
    lines := lines + [""];
    assert lines == Header;
    lines := PushResultLines(lines, report.results);
    lines := lines + [""];
    var summaryLine := SummaryText(report.summary);
    lines := lines + [summaryLine];
    lines := lines + [""];
    lines := lines + ["Report generated: " + report.timestamp.iso];
    text := Text.Join(lines, "\n");
  }

  /** The loop of `generateTextReport` that pushes one line per result. */
  method PushResultLines(lines0: seq<string>, results: seq<ReconciliationResult>) returns (lines: seq<string>)
    ensures lines == lines0 + ResultLines(results)
  {
    lines := lines0;
    var i := 0;
    while i < |results|
      invariant 0 <= i <= |results|
      invariant lines == lines0 + ResultLines(results[..i])
    {
      ResultLinesSnoc(results, i);
      lines := lines + [FormatResultLine(results[i])];
      i := i + 1;
    }
    assert results[..i] == results;
  }

  /** The summary line `generateTextReport` pushes: the all-OK sentence, or the non-zero counts. */
  method SummaryText(summary: AuditSummary) returns (line: string)
    ensures line == SummaryLine(summary)
  {
    var parts: seq<string> := [];
    if summary.discrepancyCount > 0 {
      parts := parts + [DiscrepancyPart(summary.discrepancyCount)];
    }
    if summary.unknownCount > 0 {
      parts := parts + [UnknownPart(summary.unknownCount)];
    }
    assert parts == SummaryParts(summary);
    if summary.discrepancyCount == 0 && summary.unknownCount == 0 {
      line := AllOkSummary;
    } else {
      line := "Summary: " + Text.Join(parts, ", ");
    }
  }

  lemma ResultLinesSnoc(results: seq<ReconciliationResult>, i: nat)
    requires i < |results|
    ensures ResultLines(results[..i + 1]) == ResultLines(results[..i]) + [FormatResultLine(results[i])]
  {
    var a := ResultLines(results[..i + 1]);
    var b := ResultLines(results[..i]) + [FormatResultLine(results[i])];
    assert |a| == |b|;
    forall k | 0 <= k < |a|
      ensures a[k] == b[k]
    {
      assert results[..i + 1][k] == (if k < i then results[..i][k] else results[i]);
    }
  }

  /** A piece of report text that holds no newline. */
  predicate SingleLine(s: string) {
    '\n' !in s
  }

  /** Apart from its item and reason, a result line holds no newline. */
  lemma FormatResultLineSingle(r: ReconciliationResult)
    requires SingleLine(r.item) && (r.Unknown? ==> SingleLine(r.reason))
    ensures SingleLine(FormatResultLine(r))
  {
    if r.Discrepancy? {
      DiscrepancyVerdictSingle(r.expected, r.actual, r.difference);
    }
  }

  lemma DiscrepancyVerdictSingle(expected: int, actual: int, difference: int)
    ensures SingleLine(Verdict(Discrepancy("", expected, actual, difference)))
  {
    IntTextSingle(difference);
    IntTextSingle(expected);
    IntTextSingle(actual);
  }

  lemma IntTextSingle(n: int)
    ensures SingleLine(IntToString(n))
  {
    var t := IntToString(n);
    assert forall i :: 0 <= i < |t| ==> t[i] != '\n';
  }

  /**
   * When no item, reason or timestamp holds a newline, splitting the text
   * report at newlines gives back its lines: one per result, in result
   * order, between the header and the summary.
   */
  lemma TextReportLines(report: AuditReport)
    requires forall i :: 0 <= i < |report.results| ==> SingleLine(report.results[i].item)
    requires forall i :: 0 <= i < |report.results| && report.results[i].Unknown? ==> SingleLine(report.results[i].reason)
    requires SingleLine(report.timestamp.iso)
    ensures Text.Split(TextReport(report), '\n') == ReportLines(report)
  {
    var lines := ReportLines(report);
    var n := |report.results|;
    ReportLayout(report);
    forall i | 0 <= i < |lines| ensures '\n' !in lines[i] {
      if 3 <= i < n + 3 {
        FormatResultLineSingle(report.results[i - 3]);
      } else if i == n + 4 {
        SummarySingle(report.summary);
      } else if i < 3 {
        assert lines[i] == Header[i];
      }
    }
    Text.SplitJoin(lines, '\n');
  }

  lemma SummarySingle(s: AuditSummary)
    ensures SingleLine(SummaryLine(s))
  {
    if s.discrepancyCount > 0 || s.unknownCount > 0 {
      PartsSingle(s);
    }
  }

  /** The listed counts hold no newline, and neither does their join. */
  lemma PartsSingle(s: AuditSummary)
    ensures SingleLine("Summary: " + Text.Join(SummaryParts(s), ", "))
  {
    var parts := SummaryParts(s);
    if s.discrepancyCount > 0 {
      DiscrepancyPartSingle(s.discrepancyCount);
    }
    if s.unknownCount > 0 {
      UnknownPartSingle(s.unknownCount);
    }
    assert forall i :: 0 <= i < |parts| ==> SingleLine(parts[i]);
    Text.JoinWithout(parts, ", ", '\n');
  }

  lemma DiscrepancyPartSingle(n: nat)
    ensures SingleLine(DiscrepancyPart(n))
  {
    NatTextSingle(n);
  }

  lemma UnknownPartSingle(n: nat)
    ensures SingleLine(UnknownPart(n))
  {
    NatTextSingle(n);
  }

  lemma NatTextSingle(n: nat)
    ensures SingleLine(NatToString(n))
  {
    var t := NatToString(n);
    assert forall i :: 0 <= i < |t| ==> IsDigit(t[i]);
  }

  /** `generateReport`: the text report, or the JSON rendering it is given. */
  method GenerateReport(report: AuditReport, format: OutputFormat, json: string) returns (output: string)
    ensures format == TextFormat ==> output == TextReport(report)
    ensures format == JsonFormat ==> output == json
  {
    match format {
      case TextFormat =>
        output := GenerateTextReport(report);
      case JsonFormat =>
        output := json;
    }
  }
}
