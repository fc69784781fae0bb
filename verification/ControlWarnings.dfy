/** What the control-file parsers (core/site/rules.ts) warn of: each line that does nothing though it looks as if it should, by its number. */
module ControlWarnings {
  import opened Characters
  import opened ControlFile
  import opened ControlRules
  import opened Text
  import opened Wrappers
  import HeadersFile
  import HeaderRules
  import Redirects
  import RedirectsFile

  // --- `_headers` ---

  /** A line with something on it, by its indentation and its first character. */
  lemma HeaderLinesRead(a: string, body: string, b: string)
    requires Spaces(a) && Spaces(b) && |body| > 0 && Trimmed(body)
    ensures
      HeadersFile.LineOf(a + body + b)
      == if body[0] == '#' then HeadersFile.Skipped
         else if a != "" then HeadersFile.Indented(HeadersFile.HeaderLine(body))
         else if body[0] != '/' then HeadersFile.BadPattern(HeadersFile.PatternNotRooted)
         else if !SplatAtEnd(body) then HeadersFile.BadPattern(HeadersFile.StarMisplaced)
         else HeadersFile.Opens(body)
  {
    TrimExactly(a, body, b);
    SplatExactly(body);
    FirstCharacter(body, '#');
    FirstCharacter(body, '/');
    hide IsSpace, Trim, SplatAtEnd, StartsWith, RedirectsFile.HasMisplacedSplat, HeadersFile.HeaderLine;
    assert (a + body + b)[0] == if a != "" then a[0] else body[0];
    assert "#" == ['#'] && "/" == ['/'];
  }

  lemma FirstCharacter(s: string, c: char)
    requires |s| > 0
    ensures StartsWith(s, [c]) <==> s[0] == c
  {
  }

  /** An empty line is skipped. */
  lemma EmptyLinesRead(a: string)
    requires Spaces(a)
    ensures HeadersFile.LineOf(a) == HeadersFile.Skipped
  {
    TrimStartBlank(a, "");
    assert a + "" == a;
  }

  /** What is wrong with line `i`, if anything: its pattern, its place outside a block, or its header. */
  function Complaint(lines: seq<string>, i: nat): Option<HeadersFile.Fault>
    requires i < |lines|
  {
    match HeadersFile.LineOf(lines[i])
    case Skipped => None
    case Opens(_) => None
    case BadPattern(fault) => Some(fault)
    case Indented(content) =>
      if HeaderRules.BlockOf(lines[..i]).None? then Some(HeadersFile.OutsideBlock)
      else if content.Wrong? then Some(content.fault)
      else None
  }

  /** The first `n` lines' complaints, in order, by line number. */
  function Complaints(lines: seq<string>, n: nat): seq<HeadersFile.Notice>
    requires n <= |lines|
  {
    if n == 0 then []
    else
      Complaints(lines, n - 1)
      + match Complaint(lines, n - 1) case None => [] case Some(fault) => [HeadersFile.Notice(n, fault)]
  }

  lemma {:induction false} ComplaintsOfFirst(lines: seq<string>, more: seq<string>, n: nat)
    requires n <= |lines| <= |more| && more[..|lines|] == lines
    ensures Complaints(more, n) == Complaints(lines, n)
  {
    hide HeadersFile.LineOf;
    if n > 0 {
      ComplaintsOfFirst(lines, more, n - 1);
      assert more[..n - 1] == lines[..n - 1];
      assert more[n - 1] == more[..|lines|][n - 1] == lines[n - 1];
    }
  }

  lemma {:induction false} ScanComplains(lines: seq<string>)
    requires HeadersFile.Scan(lines).Going?
    ensures HeadersFile.Scan(lines).state.warnings == Complaints(lines, |lines|)
  {
    hide HeadersFile.LineOf, HeadersFile.SetHeader, HeadersFile.Defined;
    if |lines| > 0 {
      var init := lines[..|lines| - 1];
      ScanComplains(init);
      HeaderRules.ScanAnswers(init, "", "");
      ComplaintsOfFirst(init, lines, |init|);
      StepComplains(HeadersFile.Scan(init).state, lines);
    }
  }

  lemma StepComplains(state: HeadersFile.State, lines: seq<string>)
    requires |lines| > 0 && HeaderRules.Follows(state, lines[..|lines| - 1])
    requires HeadersFile.Step(state, HeadersFile.LineOf(lines[|lines| - 1]), |lines|).Going?
    ensures
      HeadersFile.Step(state, HeadersFile.LineOf(lines[|lines| - 1]), |lines|).state.warnings
      == state.warnings
         + match Complaint(lines, |lines| - 1) case None => [] case Some(fault) => [HeadersFile.Notice(|lines|, fault)]
  {
    hide HeadersFile.LineOf, HeadersFile.SetHeader, HeadersFile.Defined, HeaderRules.BlockOf;
  }

  /** An accepted `_headers` file comes with exactly one warning for each line that is wrong, in the order of the lines and by their numbers. */
  lemma HeaderWarningsExactly(text: string)
    requires HeadersFile.Parsed(text).Accepted?
    ensures HeadersFile.Parsed(text).warnings == Complaints(Lines(text), |Lines(text)|)
  {
    hide HeadersFile.Scan, Lines;
    ScanComplains(Lines(text));
  }

  // --- `_redirects` ---

  /** The rules on the first `n` lines. */
  function RulesOf(lines: seq<string>, n: nat, number: string -> Option<int>): seq<Redirects.Rule>
    requires n <= |lines|
  {
    if n == 0 then []
    else
      RulesOf(lines, n - 1, number)
      + match RedirectsFile.ParseLine(lines[n - 1], number) case Good(rule) => [rule] case _ => []
  }

  /** Exactly the bad lines among the first `n` are warned of, each once, in order. */
  predicate WarnsOf(lines: seq<string>, n: nat, number: string -> Option<int>, warnings: seq<RedirectsFile.Warning>)
    requires n <= |lines|
  {
    && (forall w | w in warnings :: IsWarning(lines, n, number, w))
    && (forall i | 0 <= i < n && RedirectsFile.ParseLine(lines[i], number).Bad? ::
          RedirectsFile.AtLine(i + 1, RedirectsFile.ParseLine(lines[i], number).problem) in warnings)
    && (forall i, j | 0 <= i < j < |warnings| :: LineNumber(warnings[i]) < LineNumber(warnings[j]))
  }

  predicate IsWarning(lines: seq<string>, n: nat, number: string -> Option<int>, w: RedirectsFile.Warning)
    requires n <= |lines|
  {
    w.AtLine? && 1 <= w.line <= n && RedirectsFile.ParseLine(lines[w.line - 1], number) == RedirectsFile.Bad(w.problem)
  }

  function LineNumber(w: RedirectsFile.Warning): nat {
    if w.AtLine? then w.line else 0
  }

  lemma {:induction false} LinesWarn(lines: seq<string>, n: nat, number: string -> Option<int>)
    requires n <= |lines|
    ensures RedirectsFile.ParseLines(lines[..n], number).rules == RulesOf(lines, n, number)
    ensures WarnsOf(lines, n, number, RedirectsFile.ParseLines(lines[..n], number).warnings)
  {
    hide RedirectsFile.ParseLine;
    if n > 0 {
      LinesWarn(lines, n - 1, number);
      assert lines[..n][..n - 1] == lines[..n - 1];
      var before := RedirectsFile.ParseLines(lines[..n - 1], number).warnings;
      var line := RedirectsFile.ParseLine(lines[n - 1], number);
      OneMoreLine(lines, n, number, before);
      var after := RedirectsFile.ParseLines(lines[..n], number).warnings;
      assert after == if line.Bad? then before + [RedirectsFile.AtLine(n, line.problem)] else before;
    }
  }

  lemma OneMoreLine(lines: seq<string>, n: nat, number: string -> Option<int>, before: seq<RedirectsFile.Warning>)
    requires 0 < n <= |lines| && WarnsOf(lines, n - 1, number, before)
    ensures
      var line := RedirectsFile.ParseLine(lines[n - 1], number);
      WarnsOf(lines, n, number, if line.Bad? then before + [RedirectsFile.AtLine(n, line.problem)] else before)
  {
    hide RedirectsFile.ParseLine;
    var line := RedirectsFile.ParseLine(lines[n - 1], number);
    var after := if line.Bad? then before + [RedirectsFile.AtLine(n, line.problem)] else before;
    forall w | w in after ensures IsWarning(lines, n, number, w) {
      if w in before { assert IsWarning(lines, n - 1, number, w); }
    }
    forall i, j | 0 <= i < j < |after| ensures LineNumber(after[i]) < LineNumber(after[j]) {
      if j == |before| {
        assert after[i] == before[i] && before[i] in before;
        assert IsWarning(lines, n - 1, number, before[i]);
      }
    }
  }

  /**
   * A `_redirects` file within its limits gives the rules of its good lines in order, and one warning for each bad line.
   * One of more than 64 kilobytes, or of more than 500 rules, gives no rule and a single warning.
   */
  lemma RedirectWarningsExactly(text: string, number: string -> Option<int>)
    ensures
      var parsed, lines := RedirectsFile.ParsedRedirects(text, number), Lines(text);
      if ByteLength(text) > 65536 then parsed == RedirectsFile.Parsed([], [RedirectsFile.FileTooLarge])
      else if |RulesOf(lines, |lines|, number)| > 500 then parsed == RedirectsFile.Parsed([], [RedirectsFile.TooManyRules])
      else parsed.rules == RulesOf(lines, |lines|, number) && WarnsOf(lines, |lines|, number, parsed.warnings)
  {
    hide Lines, RedirectsFile.ParseLine;
    var lines := Lines(text);
    LinesWarn(lines, |lines|, number);
    assert lines[..|lines|] == lines;
  }
}
