/** The `_redirects` parser (core/site/rules.ts), and a printer it inverts. */
module RedirectsFile {
  import opened Text
  import opened Characters
  import opened ControlFile
  import opened Redirects
  import opened Wrappers

  const MAX_REDIRECT_RULES := 500

  const STATUSES: set<int> := { 200, 301, 302, 307, 308 }

  datatype Problem = ExpectedFromTo | TooManyFields | FromNotRooted | MisplacedSplat | BadStatus | BadTarget

  datatype Warning = AtLine(line: nat, problem: Problem) | FileTooLarge | TooManyRules

  datatype Parsed = Parsed(rules: seq<Rule>, warnings: seq<Warning>)

  /** What one line comes to. */
  datatype Line = Blank | Bad(problem: Problem) | Good(rule: Rule)

  /** A `*` anywhere but as the whole last segment. */
  predicate HasMisplacedSplat(pattern: string) {
    var segments := Split(pattern, '/');
    exists i | 0 <= i < |segments| :: '*' in segments[i] && (segments[i] != "*" || i != |segments| - 1)
  }

  /** `number` is the language's conversion of a token to an integer; `None` when it is not one. */
  function ParseLine(text: string, number: string -> Option<int>): Line {
    var line := Trim(BeforeComment(text));
    if line == "" then Blank
    else
      var tokens := Words(line);
      if |tokens| < 2 then Bad(ExpectedFromTo)
      else if |tokens| > 3 then Bad(TooManyFields)
      else
        var from := tokens[0];
        var explicit := |tokens| == 3;
        var last := tokens[|tokens| - 1];
        var force := EndsWith(last, "!");
        var shorn := if force then last[..|last| - 1] else last;
        var to := if explicit then tokens[1] else shorn;
        var status := if explicit then number(shorn) else Some(301);
        if !StartsWith(from, "/") then Bad(FromNotRooted)
        else if HasMisplacedSplat(from) then Bad(MisplacedSplat)
        else if status.None? || status.value !in STATUSES then Bad(BadStatus)
        else if !InternalTarget(to) then Bad(BadTarget)
        else Good(Rule(from, to, status.value, force))
  }

  function ParseLines(lines: seq<string>, number: string -> Option<int>): Parsed {
    if |lines| == 0 then Parsed([], [])
    else
      var before := ParseLines(lines[..|lines| - 1], number);
      match ParseLine(lines[|lines| - 1], number)
      case Blank => before
      case Bad(problem) => before.(warnings := before.warnings + [AtLine(|lines|, problem)])
      case Good(rule) => before.(rules := before.rules + [rule])
  }

  /** A file over a limit is ignored whole. */
  function ParsedRedirects(text: string, number: string -> Option<int>): Parsed {
    if ByteLength(text) > MAX_CONTROL_FILE_BYTES then Parsed([], [FileTooLarge])
    else
      var parsed := ParseLines(Lines(text), number);
      if |parsed.rules| > MAX_REDIRECT_RULES then Parsed([], [TooManyRules]) else parsed
  }

  lemma {:induction false} RulesGrow(lines: seq<string>, i: nat, number: string -> Option<int>)
    requires i <= |lines|
    ensures ParseLines(lines[..i], number).rules <= ParseLines(lines, number).rules
  {
    hide ParseLine;
    if i == |lines| {
      assert lines[..i] == lines;
    } else {
      var init := lines[..|lines| - 1];
      RulesGrow(init, i, number);
      assert init[..i] == lines[..i];
    }
  }

  /** One line, token by token. */
  method ReadLine(text: string, number: string -> Option<int>) returns (result: Line)
    ensures result == ParseLine(text, number)
  {
    hide HasMisplacedSplat, InternalTarget, Trim, Words, BeforeComment, StartsWith, EndsWith;
    var line := Trim(BeforeComment(text));
    if line == "" { return Blank; }
    var tokens := Words(line);
    if |tokens| < 2 { return Bad(ExpectedFromTo); }
    if |tokens| > 3 { return Bad(TooManyFields); }
    var from, to, force := tokens[0], tokens[1], false;
    var statusToken := if |tokens| == 3 then Some(tokens[2]) else None;
    if statusToken.Some? && EndsWith(statusToken.value, "!") {
      force := true;
      EndsNonEmpty(statusToken.value);
      statusToken := Some(statusToken.value[..|statusToken.value| - 1]);
    } else if statusToken.None? && EndsWith(to, "!") {
      force := true;
      EndsNonEmpty(to);
      to := to[..|to| - 1];
    }
    if !StartsWith(from, "/") { return Bad(FromNotRooted); }
    if HasMisplacedSplat(from) { return Bad(MisplacedSplat); }
    var status := if statusToken.None? then Some(301) else number(statusToken.value);
    if status.None? || status.value !in STATUSES { return Bad(BadStatus); }
    if !InternalTarget(to) { return Bad(BadTarget); }
    result := Good(Rule(from, to, status.value, force));
  }

  lemma EndsNonEmpty(token: string)
    requires EndsWith(token, "!")
    ensures |token| > 0
  {
  }

  method ParseRedirects(text: string, number: string -> Option<int>) returns (parsed: Parsed)
    ensures parsed == ParsedRedirects(text, number)
  {
    hide ParseLine, Lines;
    if ByteLength(text) > MAX_CONTROL_FILE_BYTES { return Parsed([], [FileTooLarge]); }
    var rules: seq<Rule>, warnings: seq<Warning> := [], [];
    var lines := Lines(text);
    var i := 0;
    while i < |lines|
      invariant 0 <= i <= |lines|
      invariant Parsed(rules, warnings) == ParseLines(lines[..i], number) && |rules| <= MAX_REDIRECT_RULES
    {
      assert lines[..i + 1][..i] == lines[..i];
      var line := ReadLine(lines[i], number);
      i := i + 1;
      match line {
        case Blank =>
        case Bad(problem) => warnings := warnings + [AtLine(i, problem)];
        case Good(rule) =>
          if |rules| >= MAX_REDIRECT_RULES {
            RulesGrow(lines, i, number);
            return Parsed([], [TooManyRules]);
          }
          rules := rules + [rule];
      }
    }
    assert lines[..i] == lines;
    parsed := Parsed(rules, warnings);
  }

  // --- Printing ---

  function StatusText(status: nat): string {
    if status == 200 then "200" else if status == 301 then "301" else if status == 302 then "302"
    else if status == 307 then "307" else "308"
  }

  function StatusToken(rule: Rule): string {
    StatusText(rule.status) + if rule.force then "!" else ""
  }

  /** Whether the status has to be printed: the usual one need not, unless the target ends like a forced one. */
  predicate Explicit(rule: Rule) {
    rule.status != 301 || (!rule.force && EndsWith(rule.to, "!"))
  }

  /** The second word of a rule that has no third. */
  function TargetToken(rule: Rule): string {
    rule.to + if rule.force then "!" else ""
  }

  /** As short as a rule can be written. */
  function PrintRule(rule: Rule): string {
    rule.from + [' '] + if Explicit(rule) then rule.to + [' '] + StatusToken(rule) else TargetToken(rule)
  }

  function Print(rules: seq<Rule>): string {
    Join(seq(|rules|, i requires 0 <= i < |rules| => PrintRule(rules[i])), '\n')
  }

  predicate PlainWord(word: string) {
    NoSpace(word) && '#' !in word
  }

  /** The rules a file can hold. */
  predicate Writable(rule: Rule) {
    && StartsWith(rule.from, "/") && !HasMisplacedSplat(rule.from) && PlainWord(rule.from)
    && InternalTarget(rule.to) && PlainWord(rule.to)
    && rule.status in STATUSES
  }

  /** The conversion reads the five statuses. */
  predicate ReadsStatuses(number: string -> Option<int>) {
    forall status: nat | status in STATUSES :: number(StatusText(status)) == Some(status)
  }

  lemma StatusWord(status: nat)
    requires status in STATUSES
    ensures var token := StatusText(status); PlainWord(token) && |token| == 3 && token[2] != '!' && !IsSpace(token[2])
  {
  }

  lemma TokenWord(rule: Rule)
    requires rule.status in STATUSES
    ensures
      var token := StatusToken(rule);
      && PlainWord(token) && |token| > 0 && !IsSpace(token[|token| - 1])
      && (token[|token| - 1] == '!') == rule.force
      && StatusText(rule.status) == if rule.force then token[..|token| - 1] else token
  {
    hide StatusText;
    StatusWord(rule.status);
  }

  lemma TargetWord(rule: Rule)
    requires InternalTarget(rule.to) && PlainWord(rule.to) && !Explicit(rule)
    ensures
      var token := TargetToken(rule);
      && PlainWord(token) && |token| > 0 && !IsSpace(token[|token| - 1])
      && EndsWith(token, "!") == rule.force
      && rule.to == if rule.force then token[..|token| - 1] else token
  {
    hide IsSpace;
    TargetIsSome(rule.to);
    MarkIsPlain();
    var token := TargetToken(rule);
    assert rule.force ==> token[|token| - 1..] == "!";
  }

  lemma TargetIsSome(to: string)
    requires InternalTarget(to)
    ensures |to| > 0
  {
  }

  lemma MarkIsPlain()
    ensures PlainWord("!") && !IsSpace('!')
  {
  }

  /** The words of a printed rule. */
  function PrintedTokens(rule: Rule): seq<string> {
    if Explicit(rule) then [rule.from, rule.to, StatusToken(rule)] else [rule.from, TargetToken(rule)]
  }

  lemma PrintedChars(rule: Rule)
    requires Writable(rule)
    ensures
      var line := PrintRule(rule);
      && |line| > 0 && line[0] == '/' && !IsSpace(line[|line| - 1])
      && '#' !in line && '\n' !in line && line[|line| - 1] != '\r'
  {
    hide HasMisplacedSplat, StatusText, InternalTarget;
    NoLineEnd(rule.from);
    NoLineEnd(rule.to);
    if Explicit(rule) {
      TokenWord(rule);
      NoLineEnd(StatusToken(rule));
    } else {
      TargetWord(rule);
      NoLineEnd(TargetToken(rule));
    }
    hide StatusToken, TargetToken, Explicit;
    var last := if Explicit(rule) then StatusToken(rule) else TargetToken(rule);
    var line := PrintRule(rule);
    assert line[|line| - 1] == last[|last| - 1];
  }

  lemma NoLineEnd(word: string)
    requires NoSpace(word)
    ensures '\n' !in word && '\r' !in word
  {
  }

  lemma PrintedWords(rule: Rule)
    requires Writable(rule)
    ensures Words(PrintRule(rule)) == PrintedTokens(rule)
  {
    hide HasMisplacedSplat, Words, StatusText, IsSpace, InternalTarget, Explicit;
    if Explicit(rule) {
      TokenWord(rule);
      TargetIsSome(rule.to);
      ThreeWords(rule.from, rule.to, StatusToken(rule));
    } else {
      TargetWord(rule);
      TwoWords(rule.from, TargetToken(rule));
    }
  }

  lemma TwoWords(a: string, b: string)
    requires |a| > 0 && |b| > 0 && NoSpace(a) && NoSpace(b)
    ensures Words(a + [' '] + b) == [a, b]
  {
    hide Words, NoSpace;
    WordsOfWord(b);
    WordsCons(a, b);
  }

  lemma ThreeWords(a: string, b: string, c: string)
    requires |a| > 0 && |b| > 0 && |c| > 0 && NoSpace(a) && NoSpace(b) && NoSpace(c)
    ensures Words(a + [' '] + (b + [' '] + c)) == [a, b, c]
  {
    hide Words, NoSpace;
    TwoWords(b, c);
    WordsCons(a, b + [' '] + c);
  }

  /** A line of three words, by its words. */
  lemma ThreeTokensRead(text: string, from: string, to: string, last: string, number: string -> Option<int>)
    requires Words(Trim(BeforeComment(text))) == [from, to, last] && |last| > 0
    ensures
      var force := EndsWith(last, "!");
      var status := number(if force then last[..|last| - 1] else last);
      ParseLine(text, number)
      == if !StartsWith(from, "/") then Bad(FromNotRooted)
         else if HasMisplacedSplat(from) then Bad(MisplacedSplat)
         else if status.None? || status.value !in {200, 301, 302, 307, 308} then Bad(BadStatus)
         else if !InternalTarget(to) then Bad(BadTarget)
         else Good(Rule(from, to, status.value, force))
  {
    assert Words("") == [];
    hide Words, Trim, BeforeComment, HasMisplacedSplat, InternalTarget, StartsWith;
  }

  /** A line of two words. */
  lemma TwoTokensRead(text: string, from: string, last: string, number: string -> Option<int>)
    requires Words(Trim(BeforeComment(text))) == [from, last] && |last| > 0
    ensures
      var force := EndsWith(last, "!");
      var to := if force then last[..|last| - 1] else last;
      ParseLine(text, number)
      == if !StartsWith(from, "/") then Bad(FromNotRooted)
         else if HasMisplacedSplat(from) then Bad(MisplacedSplat)
         else if !InternalTarget(to) then Bad(BadTarget)
         else Good(Rule(from, to, 301, force))
  {
    assert Words("") == [];
    hide Words, Trim, BeforeComment, HasMisplacedSplat, InternalTarget, StartsWith;
  }

  lemma PrintedLine(rule: Rule)
    requires Writable(rule)
    ensures Words(Trim(BeforeComment(PrintRule(rule)))) == PrintedTokens(rule)
  {
    PrintedChars(rule);
    PrintedWords(rule);
    hide PrintRule, PrintedTokens, IsSpace, Trim, Words, Writable;
    var line := PrintRule(rule);
    assert BeforeComment(line) == line;
    TrimKeeps(line);
  }

  /** A printed rule reads as itself. */
  lemma PrintedRuleParses(rule: Rule, number: string -> Option<int>)
    requires Writable(rule) && ReadsStatuses(number)
    ensures ParseLine(PrintRule(rule), number) == Good(rule)
  {
    PrintedLine(rule);
    if Explicit(rule) {
      TokenWord(rule);
      ThreeTokensRead(PrintRule(rule), rule.from, rule.to, StatusToken(rule), number);
      assert number(StatusText(rule.status)) == Some(rule.status);
      MarkEnds(StatusToken(rule));
    } else {
      TargetWord(rule);
      TwoTokensRead(PrintRule(rule), rule.from, TargetToken(rule), number);
    }
  }

  lemma MarkEnds(token: string)
    requires |token| > 0
    ensures EndsWith(token, "!") <==> token[|token| - 1] == '!'
  {
  }

  lemma {:induction false} AllRulesParse(rules: seq<Rule>, lines: seq<string>, number: string -> Option<int>)
    requires |lines| == |rules| && forall i | 0 <= i < |rules| :: ParseLine(lines[i], number) == Good(rules[i])
    ensures ParseLines(lines, number) == Parsed(rules, [])
  {
    hide ParseLine;
    if |rules| > 0 {
      var n := |rules| - 1;
      AllRulesParse(rules[..n], lines[..n], number);
      assert rules[..n] + [rules[n]] == rules;
    }
  }

  lemma NothingParses(number: string -> Option<int>)
    ensures ParsedRedirects(Print([]), number) == Parsed([], [])
  {
    assert Lines("") == [""];
    assert ParseLine("", number) == Blank;
    assert [""][..0] == [];
  }

  /** Printing rules within the limits and parsing the text gives the rules back, with no warning. */
  lemma RedirectsRoundTrip(rules: seq<Rule>, number: string -> Option<int>)
    requires ReadsStatuses(number)
    requires |rules| <= MAX_REDIRECT_RULES && ByteLength(Print(rules)) <= MAX_CONTROL_FILE_BYTES
    requires forall i | 0 <= i < |rules| :: Writable(rules[i])
    ensures ParsedRedirects(Print(rules), number) == Parsed(rules, [])
  {
    hide Writable, PrintRule, Lines, ParseLine, ReadsStatuses;
    if |rules| == 0 {
      NothingParses(number);
    } else {
      var lines := seq(|rules|, i requires 0 <= i < |rules| => PrintRule(rules[i]));
      forall i | 0 <= i < |rules|
        ensures '\n' !in lines[i] && !EndsWith(lines[i], "\r") && Unmarked(lines[i]) == lines[i]
        ensures ParseLine(lines[i], number) == Good(rules[i])
      {
        PrintedChars(rules[i]);
        PrintedRuleParses(rules[i], number);
      }
      LinesOfJoin(lines);
      AllRulesParse(rules, lines, number);
    }
  }

  // --- And nothing else is ever parsed ---

  lemma ParsedRuleIsWritable(text: string, number: string -> Option<int>)
    requires ParseLine(text, number).Good?
    ensures Writable(ParseLine(text, number).rule)
  {
    hide HasMisplacedSplat, InternalTarget, Trim, Words, StartsWith, BeforeComment;
    var before := BeforeComment(text);
    var line := Trim(before);
    TrimTrims(before);
    WordsAreWords(line);
    var tokens := Words(line);
    forall i | 0 <= i < |tokens|
      ensures PlainWord(tokens[i])
    {
      assert WordOf(tokens[i], line);
    }
    var last := tokens[|tokens| - 1];
    assert |last| > 0 ==> PlainWord(last[..|last| - 1]);
  }

  lemma {:induction false} ParsedAreWritable(lines: seq<string>, number: string -> Option<int>)
    ensures forall i | 0 <= i < |ParseLines(lines, number).rules| :: Writable(ParseLines(lines, number).rules[i])
  {
    hide ParseLine, Writable;
    if |lines| > 0 {
      var last := lines[|lines| - 1];
      ParsedAreWritable(lines[..|lines| - 1], number);
      if ParseLine(last, number).Good? {
        ParsedRuleIsWritable(last, number);
      }
    }
  }

  lemma ParsedFileIsWritable(text: string, number: string -> Option<int>)
    ensures forall rule | rule in ParsedRedirects(text, number).rules :: Writable(rule)
  {
    hide Writable, Lines, ParseLines;
    ParsedAreWritable(Lines(text), number);
  }
}
