/** The `_headers` parser and matcher (core/site/rules.ts). */
module HeadersFile {
  import opened Text
  import opened Characters
  import opened ControlFile
  import Redirects
  import RedirectsFile

  const MAX_HEADER_RULES := 100
  const MAX_HEADERS_PER_RULE := 20
  const MAX_HEADER_VALUE_BYTES := 2 * 1024

  const DENIED_HEADERS: set<string> := {
    "cache-control", "etag", "last-modified", "content-length", "content-encoding", "content-range", "content-type",
    "accept-ranges", "vary", "set-cookie", "www-authenticate", "content-disposition", "x-content-type-options" }

  datatype Header = Header(name: string, value: string)

  datatype HeaderRule = HeaderRule(pattern: string, headers: seq<Header>)

  datatype Fault =
    PatternNotRooted | StarMisplaced | OutsideBlock | ExpectedNameValue | InvalidName | DeniedName | ControlCharacter

  datatype Notice = Notice(line: nat, fault: Fault)

  datatype Reason = FileTooLarge | TooManyRules | ValueTooLarge | TooManyHeaders

  datatype ParsedHeaders = Accepted(rules: seq<HeaderRule>, warnings: seq<Notice>) | Ignored(reason: Reason)

  // --- One line ---

  predicate NameChar(c: char) {
    'a' <= c <= 'z' || '0' <= c <= '9' || c in "!#$%&'*+.^_`|~-"
  }

  predicate HeaderName(name: string) {
    |name| > 0 && forall i | 0 <= i < |name| :: NameChar(name[i])
  }

  predicate Denied(name: string) {
    name in DENIED_HEADERS || StartsWith(name, "access-control-")
  }

  predicate ControlChar(c: char) {
    c < ' ' || '\U{7F}' <= c <= '\U{9F}'
  }

  datatype Content = Wrong(fault: Fault) | Huge | Usable(header: Header)

  /** An indented line inside a block. */
  function HeaderLine(trimmed: string): Content {
    if ':' !in trimmed || IndexOf(trimmed, ':') == 0 then Wrong(ExpectedNameValue)
    else
      var colon := IndexOf(trimmed, ':');
      var name, value := Lower(Trim(trimmed[..colon])), Trim(trimmed[colon + 1..]);
      if !HeaderName(name) then Wrong(InvalidName)
      else if Denied(name) then Wrong(DeniedName)
      else if exists i | 0 <= i < |value| :: ControlChar(value[i]) then Wrong(ControlCharacter)
      else if ByteLength(value) > MAX_HEADER_VALUE_BYTES then Huge
      else Usable(Header(name, value))
  }

  datatype Line = Skipped | Opens(pattern: string) | BadPattern(problem: Fault) | Indented(content: Content)

  function LineOf(text: string): Line {
    var trimmed := Trim(text);
    if trimmed == "" || StartsWith(trimmed, "#") then Skipped
    else if |text| > 0 && IsSpace(text[0]) then Indented(HeaderLine(trimmed))
    else if !StartsWith(trimmed, "/") then BadPattern(PatternNotRooted)
    else if RedirectsFile.HasMisplacedSplat(trimmed) then BadPattern(StarMisplaced)
    else Opens(trimmed)
  }

  // --- The block being filled ---

  function HeaderNames(headers: seq<Header>): set<string> {
    if |headers| == 0 then {} else {headers[0].name} + HeaderNames(headers[1..])
  }

  /** Setting a property of the plain object: the last mention wins, and `__proto__` is dropped. */
  function SetHeader(headers: seq<Header>, header: Header): seq<Header> {
    if header.name == "__proto__" then headers
    else if |headers| == 0 then [header]
    else if headers[0].name == header.name then [header] + headers[1..]
    else [headers[0]] + SetHeader(headers[1..], header)
  }

  /** Whether the property reads as something already: set, or inherited. */
  predicate Defined(headers: seq<Header>, name: string) {
    name in HeaderNames(headers) || name in Redirects.INHERITED
  }

  /** The parser's state: the rules so far, whether the last one is open, and its counted headers. */
  datatype State = State(rules: seq<HeaderRule>, open: bool, count: nat, warnings: seq<Notice>)

  datatype Progress = Going(state: State) | Stopped(reason: Reason)

  function Warned(state: State, line: nat, fault: Fault): State {
    state.(warnings := state.warnings + [Notice(line, fault)])
  }

  function AddHeader(state: State, header: Header): Progress
    requires |state.rules| > 0
  {
    var last := |state.rules| - 1;
    var rule := state.rules[last];
    var added := !Defined(rule.headers, header.name);
    if added && state.count >= MAX_HEADERS_PER_RULE then Stopped(TooManyHeaders)
    else
      var updated := rule.(headers := SetHeader(rule.headers, header));
      Going(state.(rules := state.rules[..last] + [updated], count := if added then state.count + 1 else state.count))
  }

  function Step(state: State, line: Line, number: nat): Progress {
    match line
    case Skipped => Going(state)
    case BadPattern(fault) => Going(Warned(state, number, fault).(open := false))
    case Opens(pattern) =>
      if |state.rules| >= MAX_HEADER_RULES then Stopped(TooManyRules)
      else Going(state.(rules := state.rules + [HeaderRule(pattern, [])], open := true, count := 0))
    case Indented(content) =>
      if !state.open || |state.rules| == 0 then Going(Warned(state, number, OutsideBlock))
      else
        match content
        case Wrong(fault) => Going(Warned(state, number, fault))
        case Huge => Stopped(ValueTooLarge)
        case Usable(header) => AddHeader(state, header)
  }

  function Scan(lines: seq<string>): Progress {
    if |lines| == 0 then Going(State([], false, 0, []))
    else
      match Scan(lines[..|lines| - 1])
      case Stopped(reason) => Stopped(reason)
      case Going(state) => Step(state, LineOf(lines[|lines| - 1]), |lines|)
  }

  /** The blocks with headers. */
  function Usables(rules: seq<HeaderRule>): seq<HeaderRule> {
    if |rules| == 0 then []
    else Usables(rules[..|rules| - 1]) + if |rules[|rules| - 1].headers| > 0 then [rules[|rules| - 1]] else []
  }

  function Parsed(text: string): ParsedHeaders {
    if ByteLength(text) > MAX_CONTROL_FILE_BYTES then Ignored(FileTooLarge)
    else
      match Scan(Lines(text))
      case Stopped(reason) => Ignored(reason)
      case Going(state) => Accepted(Usables(state.rules), state.warnings)
  }

  lemma {:induction false} StopsForGood(lines: seq<string>, i: nat)
    requires i <= |lines| && Scan(lines[..i]).Stopped?
    ensures Scan(lines) == Scan(lines[..i])
  {
    hide Step;
    if i == |lines| {
      assert lines[..i] == lines;
    } else {
      var init := lines[..|lines| - 1];
      assert init[..i] == lines[..i];
      StopsForGood(init, i);
    }
  }

  method ParseHeaders(text: string) returns (parsed: ParsedHeaders)
    ensures parsed == Parsed(text)
  {
    hide LineOf, Lines, SetHeader, Defined;
    if ByteLength(text) > MAX_CONTROL_FILE_BYTES { return Ignored(FileTooLarge); }
    var rules: seq<HeaderRule>, warnings: seq<Notice> := [], [];
    var open, count := false, 0;
    var lines := Lines(text);
    var i := 0;
    while i < |lines|
      invariant 0 <= i <= |lines|
      invariant Scan(lines[..i]) == Going(State(rules, open, count, warnings))
      invariant open ==> |rules| > 0
    {
      assert lines[..i + 1][..i] == lines[..i];
      var line := LineOf(lines[i]);
      i := i + 1;
      if line.Skipped? { continue; }
      if line.BadPattern? {
        warnings, open := warnings + [Notice(i, line.problem)], false;
        continue;
      }
      if line.Opens? {
        if |rules| >= MAX_HEADER_RULES {
          StopsForGood(lines, i);
          return Ignored(TooManyRules);
        }
        rules, open, count := rules + [HeaderRule(line.pattern, [])], true, 0;
        continue;
      }
      if !open {
        warnings := warnings + [Notice(i, OutsideBlock)];
        continue;
      }
      match line.content {
        case Wrong(fault) => warnings := warnings + [Notice(i, fault)];
        case Huge =>
          StopsForGood(lines, i);
          return Ignored(ValueTooLarge);
        case Usable(header) =>
          var last := |rules| - 1;
          var current := rules[last];
          if count >= MAX_HEADERS_PER_RULE && !Defined(current.headers, header.name) {
            StopsForGood(lines, i);
            return Ignored(TooManyHeaders);
          }
          if !Defined(current.headers, header.name) { count := count + 1; }
          rules := rules[..last] + [current.(headers := SetHeader(current.headers, header))];
      }
    }
    assert lines[..i] == lines;
    var usable := KeepUsables(rules);
    parsed := Accepted(usable, warnings);
  }

  method KeepUsables(rules: seq<HeaderRule>) returns (kept: seq<HeaderRule>)
    ensures kept == Usables(rules)
  {
    kept := [];
    var i := 0;
    while i < |rules|
      invariant 0 <= i <= |rules|
      invariant kept == Usables(rules[..i])
    {
      assert rules[..i + 1][..i] == rules[..i];
      if |rules[i].headers| > 0 { kept := kept + [rules[i]]; }
      i := i + 1;
    }
    assert rules[..i] == rules;
  }
}
