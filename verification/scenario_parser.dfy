/** The scenario-heading scanner of `src/parser.ts`: the text is split on
    '\n' and every line the pattern `/^\s*(Scenario:)\s*(.+)$/` accepts is
    reported with its 0-based line number and the captured label. */
module ScenarioParser {
  import opened Js
  import opened JsText

  const Marker: string := "Scenario:"

  /** Not a heading marker for the scanner; `getScenarioName` strips it too. */
  const OutlineMarker: string := "Scenario Outline:"

  /** One report: the 0-based line number and the label (the text after the marker). */
  datatype Heading = Heading(lineNo: nat, text: string)

  // ---------------------------------------------------------------------------
  // The heading pattern, stated declaratively
  // ---------------------------------------------------------------------------

  /** After `Scenario:`, `\s*(.+)$` can match with the label starting at `j`:
      whitespace before it, and a non-empty label that `.` accepts to the end. */
  predicate LabelStartsAt(rest: string, j: int)
  {
    0 <= j < |rest| && AllSpace(rest[..j]) && NoTerminator(rest[j..])
  }

  /** `line` splits as whitespace, `Scenario:` at `i`, whitespace, and a label
      at `j` that runs to the end of the line without a line terminator. */
  predicate HeadingAt(line: string, i: int, j: int)
  {
    && 0 <= i && i + |Marker| <= j < |line|
    && AllSpace(line[..i])
    && OccursAt(line, Marker, i)
    && AllSpace(line[i + |Marker|..j])
    && NoTerminator(line[j..])
  }

  // ---------------------------------------------------------------------------
  // The pattern, as the regular-expression engine runs it
  // ---------------------------------------------------------------------------

  /** The greedy `\s*` gives back one character at a time, from `k` down,
      until `(.+)$` matches the remainder. */
  function Backtrack(rest: string, k: nat): (r: Option<nat>)
    requires k <= |rest| && AllSpace(rest[..k])
    ensures r.Some? ==> r.value <= k && LabelStartsAt(rest, r.value)
    ensures r.Some? ==> forall j :: r.value < j <= k ==> !LabelStartsAt(rest, j)
    ensures r.None? ==> forall j :: 0 <= j <= k ==> !LabelStartsAt(rest, j)
    decreases k
  {
    if k < |rest| && NoTerminator(rest[k..]) then Some(k)
    else if k == 0 then None
    else
      assert rest[..k - 1] == rest[..k][..k - 1];
      Backtrack(rest, k - 1)
  }

  /** `\s*(.+)$` matched at the start of `rest`: where the label begins. The
      greedy whitespace run is as long as it can be. */
  function MatchLabel(rest: string): (r: Option<nat>)
    ensures r.Some? ==> LabelStartsAt(rest, r.value)
    ensures r.Some? ==> forall j :: LabelStartsAt(rest, j) ==> j <= r.value
    ensures r.None? ==> forall j :: !LabelStartsAt(rest, j)
  {
    var n := SpaceRun(rest);
    var r := Backtrack(rest, n);
    assert forall j :: LabelStartsAt(rest, j) ==> j <= n by {
      forall j | LabelStartsAt(rest, j) ensures j <= n {
        SpacePrefixWithinRun(rest, j);
      }
    }
    r
  }

  /** `GherkinScenarioRe.exec(line)`: the captured label `test[2]` when the line
      is a heading. The label is a non-empty tail of the line, trailing
      whitespace included, and holds no line terminator. */
  function MatchHeading(line: string): (r: Option<string>)
    ensures r.Some? ==> 0 < |r.value| <= |line| && r.value == line[|line| - |r.value|..]
    ensures r.Some? ==> NoTerminator(r.value)
  {
    var i := SpaceRun(line);
    var after := line[i..];
    if |after| >= |Marker| && after[..|Marker|] == Marker then
      var rest := after[|Marker|..];
      match MatchLabel(rest)
      case Some(j) =>
        assert rest[j..] == line[i + |Marker| + j..];
        Some(rest[j..])
      case None => None
    else None
  }

  // ---------------------------------------------------------------------------
  // The scan over lines
  // ---------------------------------------------------------------------------

  /** The outcome of the heading pattern on each line. */
  function Matches(lines: seq<string>): (m: seq<Option<string>>)
  {
    seq(|lines|, k requires 0 <= k < |lines| => MatchHeading(lines[k]))
  }

  /** What the scan from line `from` on reports, given each line's match
      outcome `m`: lines in strictly increasing order within `[from, |m|)`,
      each a line that matches, with the label it captures, and every
      matching line among them. */
  predicate Reports(m: seq<Option<string>>, from: nat, r: seq<Heading>)
  {
    && (forall n :: 0 <= n < |r| ==> from <= r[n].lineNo < |m|)
    && (forall n :: 0 <= n < |r| ==> m[r[n].lineNo] == Some(r[n].text))
    && (forall n, n' :: 0 <= n < n' < |r| ==> r[n].lineNo < r[n'].lineNo)
    && (forall k :: from <= k < |m| && m[k].Some? ==>
          exists n :: 0 <= n < |r| && r[n].lineNo == k)
  }

  /** The `for` loop from line `from` on: a line that matches is reported
      (and the loop continues with the next line), any other line is
      skipped, so there is at most one report per line. */
  function ScanLines(lines: seq<string>, from: nat): (r: seq<Heading>)
    requires from <= |lines|
    ensures |r| <= |lines| - from
    ensures Reports(Matches(lines), from, r)
    decreases |lines| - from
  {
    if from == |lines| then []
    else
      var tail := ScanLines(lines, from + 1);
      match MatchHeading(lines[from])
      case Some(text) =>
        ReportsCons(Matches(lines), from, text, tail);
        [Heading(from, text)] + tail
      case None =>
        ReportsSkip(Matches(lines), from, tail);
        tail
  }

  /** Helper for `ScanLines`: a line that does not match adds no report. */
  lemma ReportsSkip(m: seq<Option<string>>, from: nat, tail: seq<Heading>)
    requires from < |m| && m[from].None?
    requires Reports(m, from + 1, tail)
    ensures Reports(m, from, tail)
  {
  }

  /** Helper for `ScanLines`: reporting line `from` in front of the reports
      from line `from + 1` on. */
  lemma ReportsCons(m: seq<Option<string>>, from: nat, text: string, tail: seq<Heading>)
    requires from < |m| && m[from] == Some(text)
    requires Reports(m, from + 1, tail)
    ensures Reports(m, from, [Heading(from, text)] + tail)
  {
    var r := [Heading(from, text)] + tail;
    assert forall n :: 0 < n < |r| ==> r[n] == tail[n - 1];
    forall n | 0 <= n < |r|
      ensures from <= r[n].lineNo < |m|
      ensures m[r[n].lineNo] == Some(r[n].text)
    {
    }
    forall n, n' | 0 <= n < n' < |r| ensures r[n].lineNo < r[n'].lineNo {
      if n > 0 {
        assert r[n] == tail[n - 1] && r[n'] == tail[n' - 1];
      }
    }
    forall k | from <= k < |m| && m[k].Some?
      ensures exists n :: 0 <= n < |r| && r[n].lineNo == k
    {
      if k == from {
        assert r[0].lineNo == k;
      } else {
        var n :| 0 <= n < |tail| && tail[n].lineNo == k;
        assert r[n + 1].lineNo == k;
      }
    }
  }

  /** `parseScenario(text, events)`, with the `OnScenario` calls collected in order. */
  function Parse(text: string): (r: seq<Heading>)
    ensures Reports(Matches(Split(text, '\n')), 0, r)
    ensures |r| <= multiset(text)['\n'] + 1
  {
    ScanLines(Split(text, '\n'), 0)
  }

  /** A sequence meeting the contract of `ScanLines` is the scan itself: the
      reports depend on the lines alone, so scanning the same text twice
      gives the same reports. */
  lemma ScanIsDetermined(lines: seq<string>, from: nat, r: seq<Heading>)
    requires from <= |lines|
    requires Reports(Matches(lines), from, r)
    ensures r == ScanLines(lines, from)
  {
    ReportsUnique(Matches(lines), from, r, ScanLines(lines, from));
  }

  /** At most one sequence reports a given list of match outcomes. */
  lemma {:induction false} ReportsUnique(m: seq<Option<string>>, from: nat, r: seq<Heading>, r': seq<Heading>)
    requires from <= |m|
    requires Reports(m, from, r) && Reports(m, from, r')
    ensures r == r'
    decreases |m| - from
  {
    if from == |m| {
      IncreasingWithin(r, from, |m|);
      IncreasingWithin(r', from, |m|);
    } else if m[from].Some? {
      ReportsHead(m, from, m[from].value, r);
      ReportsHead(m, from, m[from].value, r');
      ReportsUnique(m, from + 1, r[1..], r'[1..]);
      assert r == [r[0]] + r[1..] && r' == [r'[0]] + r'[1..];
    } else {
      ReportsAfterSkip(m, from, r);
      ReportsAfterSkip(m, from, r');
      ReportsUnique(m, from + 1, r, r');
    }
  }

  /** Strictly increasing line numbers within `[from, bound)` are at most
      `bound - from` in number. */
  lemma {:induction false} IncreasingWithin(r: seq<Heading>, from: nat, bound: nat)
    requires from <= bound
    requires forall n :: 0 <= n < |r| ==> from <= r[n].lineNo < bound
    requires forall n, m :: 0 <= n < m < |r| ==> r[n].lineNo < r[m].lineNo
    ensures |r| <= bound - from
    decreases |r|
  {
    if |r| > 0 {
      var t := r[1..];
      forall n | 0 <= n < |t| ensures r[0].lineNo + 1 <= t[n].lineNo < bound {
        assert t[n] == r[n + 1];
      }
      IncreasingWithin(t, r[0].lineNo + 1, bound);
    }
  }

  /** Helper for `ReportsUnique`: a matching first line is the first report. */
  lemma ReportsHead(m: seq<Option<string>>, from: nat, text: string, r: seq<Heading>)
    requires from < |m| && m[from] == Some(text)
    requires Reports(m, from, r)
    ensures |r| > 0 && r[0] == Heading(from, text)
    ensures Reports(m, from + 1, r[1..])
  {
    var n :| 0 <= n < |r| && r[n].lineNo == from;
    assert r[0].lineNo <= r[n].lineNo;
    ReportsTail(m, from, r);
  }

  /** Helper for `ReportsHead`: once the first report is on line `from`, the
      rest report from line `from + 1` on. */
  lemma ReportsTail(m: seq<Option<string>>, from: nat, r: seq<Heading>)
    requires from < |m| && |r| > 0 && r[0].lineNo == from
    requires Reports(m, from, r)
    ensures Reports(m, from + 1, r[1..])
  {
    var t := r[1..];
    forall k | from + 1 <= k < |m| && m[k].Some?
      ensures exists n :: 0 <= n < |t| && t[n].lineNo == k
    {
      var n' :| 0 <= n' < |r| && r[n'].lineNo == k;
      assert t[n' - 1].lineNo == k;
    }
    forall n | 0 <= n < |t| ensures from + 1 <= t[n].lineNo {
      assert r[0].lineNo < r[n + 1].lineNo;
    }
  }

  /** Helper for `ReportsUnique`: a line that does not match is not reported. */
  lemma ReportsAfterSkip(m: seq<Option<string>>, from: nat, r: seq<Heading>)
    requires from < |m| && m[from].None?
    requires Reports(m, from, r)
    ensures Reports(m, from + 1, r)
  {
    forall n | 0 <= n < |r| ensures from + 1 <= r[n].lineNo {
      assert m[r[n].lineNo].Some?;
    }
  }

  // ---------------------------------------------------------------------------
  // Properties of the pattern
  // ---------------------------------------------------------------------------

  /** Every reported label comes from a heading decomposition of its line. */
  lemma ReportedIsHeading(line: string)
    requires MatchHeading(line).Some?
    ensures exists i, j :: HeadingAt(line, i, j) && MatchHeading(line).value == line[j..]
  {
    var i := SpaceRun(line);
    var after := line[i..];
    assert |after| >= |Marker| && after[..|Marker|] == Marker;
    var rest := after[|Marker|..];
    var j := MatchLabel(rest).value;
    HeadingFromParts(line, i, j);
  }

  /** Helper for `ReportedIsHeading`: leading whitespace, the marker and a
      label position found in the rest of the line make a decomposition. */
  lemma HeadingFromParts(line: string, i: nat, j: nat)
    requires i + |Marker| <= |line| && AllSpace(line[..i]) && line[i..][..|Marker|] == Marker
    requires LabelStartsAt(line[i..][|Marker|..], j)
    ensures HeadingAt(line, i, i + |Marker| + j)
    ensures line[i..][|Marker|..][j..] == line[i + |Marker| + j..]
  {
    var rest := line[i..][|Marker|..];
    assert line[i..i + |Marker|] == Marker;
    assert rest[..j] == line[i + |Marker|..i + |Marker| + j];
    assert rest[j..] == line[i + |Marker| + j..];
  }

  /** Every heading decomposition is reported, and the reported label starts
      no earlier than the decomposition's: `\s*` is greedy. */
  lemma HeadingIsReported(line: string, i: int, j: int)
    requires HeadingAt(line, i, j)
    ensures MatchHeading(line).Some?
    ensures |MatchHeading(line).value| <= |line| - j
  {
    assert line[i] == Marker[0];
    SpaceRunStopsAt(line, i);
    var after := line[i..];
    assert after[..|Marker|] == Marker;
    var rest := after[|Marker|..];
    assert rest[..j - i - |Marker|] == line[i + |Marker|..j];
    assert rest[j - i - |Marker|..] == line[j..];
    assert LabelStartsAt(rest, j - i - |Marker|);
  }

  /** A `Scenario Outline:` heading is never reported. */
  lemma OutlineNeverReported(line: string, i: int)
    requires OccursAt(line, OutlineMarker, i) && AllSpace(line[..i])
    ensures MatchHeading(line).None?
  {
    assert line[i] == OutlineMarker[0];
    SpaceRunStopsAt(line, i);
    assert line[i..][..|Marker|][8] == OutlineMarker[8] != Marker[8];
  }

  /** A line still ending in '\r' (text with CRLF line ends) is never reported. */
  lemma CarriageReturnLineNotReported(line: string)
    requires |line| > 0 && line[|line| - 1] == '\r'
    ensures MatchHeading(line).None?
  {
  }

  /** Text in which `Scenario:` never occurs yields no reports. */
  lemma NoMarkerNoReports(text: string)
    requires forall i :: !OccursAt(text, Marker, i)
    ensures Parse(text) == []
  {
    var lines := Split(text, '\n');
    var r := Parse(text);
    if |r| > 0 {
      var k := r[0].lineNo;
      ReportedIsHeading(lines[k]);
      var i, j :| HeadingAt(lines[k], i, j);
      OccursInPiece(lines, '\n', k, Marker, i);
    }
  }

  /** A line is a heading when it has some decomposition `HeadingAt`. */
  ghost predicate IsHeadingLine(line: string)
  {
    exists i, j :: HeadingAt(line, i, j)
  }

  /** The pattern accepts exactly the heading lines. */
  lemma MatchIffHeading(line: string)
    ensures MatchHeading(line).Some? <==> IsHeadingLine(line)
  {
    if MatchHeading(line).Some? {
      ReportedIsHeading(line);
    }
    if IsHeadingLine(line) {
      var i, j :| HeadingAt(line, i, j);
      HeadingIsReported(line, i, j);
    }
  }

  /** The scan of a text, in terms of its '\n'-separated lines: every report
      names one of them, in strictly increasing order, and a line is
      reported exactly when it is a heading line. */
  lemma ParseReportsHeadingLines(text: string)
    ensures var lines := Split(text, '\n');
            var r := Parse(text);
            && (forall n :: 0 <= n < |r| ==> r[n].lineNo < |lines| && IsHeadingLine(lines[r[n].lineNo]))
            && (forall n, n' :: 0 <= n < n' < |r| ==> r[n].lineNo < r[n'].lineNo)
            && (forall k :: 0 <= k < |lines| && IsHeadingLine(lines[k]) ==>
                  exists n :: 0 <= n < |r| && r[n].lineNo == k)
  {
    var lines := Split(text, '\n');
    var m := Matches(lines);
    var r := Parse(text);
    forall n | 0 <= n < |r| ensures r[n].lineNo < |lines| && IsHeadingLine(lines[r[n].lineNo]) {
      assert m[r[n].lineNo] == Some(r[n].text);
      MatchIffHeading(lines[r[n].lineNo]);
    }
    forall k | 0 <= k < |lines| && IsHeadingLine(lines[k])
      ensures exists n :: 0 <= n < |r| && r[n].lineNo == k
    {
      MatchIffHeading(lines[k]);
      assert m[k].Some?;
    }
  }

  /** When only whitespace follows `Scenario:`, the greedy `\s*` gives one
      character back so that `(.+)` can match it: the label is that last
      whitespace character. */
  lemma WhitespaceOnlyLabel(w: string)
    requires |w| >= 1 && AllSpace(w) && NoTerminator(w)
    ensures MatchHeading(Marker + w) == Some([w[|w| - 1]])
  {
    var line := Marker + w;
    assert line[0] == 'S';
    SpaceRunStopsAt(line, 0);
    assert line[0..][..|Marker|] == Marker;
    assert line[0..][|Marker|..] == w;
    assert w[..|w| - 1] == w[..|w|][..|w| - 1];
    assert LabelStartsAt(w, |w| - 1);
    assert MatchLabel(w) == Some(|w| - 1);
    assert w[|w| - 1..] == [w[|w| - 1]];
  }
}
