/** A printer the `_headers` parser (core/site/rules.ts) inverts, and exactly which rules a file can hold. */
module HeadersPrinter {
  import opened Text
  import opened Characters
  import opened ControlFile
  import opened HeadersFile
  import opened HeaderRules

  function PrintHeader(header: Header): string {
    [' '] + (header.name + [':'] + header.value)
  }

  function PrintBlock(rule: HeaderRule): seq<string> {
    [rule.pattern] + seq(|rule.headers|, i requires 0 <= i < |rule.headers| => PrintHeader(rule.headers[i]))
  }

  function PrintLines(rules: seq<HeaderRule>): seq<string> {
    if |rules| == 0 then [] else PrintLines(rules[..|rules| - 1]) + PrintBlock(rules[|rules| - 1])
  }

  function Print(rules: seq<HeaderRule>): string {
    Join(PrintLines(rules), '\n')
  }

  /** The headers that count towards the limit: every plain object has a `constructor` already. */
  function Counted(headers: seq<Header>): nat {
    if |headers| == 0 then 0
    else Counted(headers[..|headers| - 1]) + if headers[|headers| - 1].name in Redirects.INHERITED then 0 else 1
  }

  predicate WritableValue(value: string) {
    Trimmed(value) && (forall i | 0 <= i < |value| :: !ControlChar(value[i])) && ByteLength(value) <= 2048
  }

  predicate WritableHeader(header: Header) {
    && HeaderName(header.name) && header.name[0] != '#' && !Denied(header.name) && header.name != "__proto__"
    && WritableValue(header.value)
  }

  predicate WritablePattern(pattern: string) {
    StartsWith(pattern, "/") && Trimmed(pattern) && '\n' !in pattern && !RedirectsFile.HasMisplacedSplat(pattern)
  }

  predicate WritableHeaders(headers: seq<Header>) {
    && DistinctNames(headers) && Counted(headers) <= 20
    && forall i | 0 <= i < |headers| :: WritableHeader(headers[i])
  }

  /** The rules a file can hold. */
  predicate Writable(rule: HeaderRule) {
    WritablePattern(rule.pattern) && |rule.headers| > 0 && WritableHeaders(rule.headers)
  }

  // --- One printed line ---

  lemma NameChars(c: char)
    requires NameChar(c)
    ensures !IsSpace(c) && c != ':' && LowerChar(c) == c
  {
  }

  lemma NameReads(name: string)
    requires HeaderName(name)
    ensures ':' !in name && Trimmed(name) && Lower(name) == name && '\n' !in name && NoSpace(name)
  {
    hide IsSpace, NameChar, LowerChar;
    forall i | 0 <= i < |name|
      ensures name[i] != ':' && !IsSpace(name[i]) && LowerChar(name[i]) == name[i] && name[i] != '\n'
    {
      NameChars(name[i]);
      LineEndIsSpace();
    }
  }

  lemma LineEndIsSpace()
    ensures IsSpace('\n') && IsSpace('\r') && IsSpace('\U{FEFF}') && IsSpace(' ') && !IsSpace(':') && !IsSpace('/')
  {
  }

  lemma ValueHasNoLineEnd(value: string)
    requires forall i | 0 <= i < |value| :: !ControlChar(value[i])
    ensures '\n' !in value
  {
  }

  /** The text of a printed header, without its indentation. */
  lemma PrintedTrims(header: Header)
    requires WritableHeader(header)
    ensures Trim(PrintHeader(header)) == header.name + [':'] + header.value
  {
    hide IsSpace, Denied;
    var body := header.name + [':'] + header.value;
    NameReads(header.name);
    LineEndIsSpace();
    assert PrintHeader(header)[1..] == body;
    assert body[0] == header.name[0];
    assert body[|body| - 1] == if |header.value| > 0 then header.value[|header.value| - 1] else ':';
    assert TrimStart(PrintHeader(header)) == body;
  }

  lemma PrintedReads(header: Header)
    requires WritableHeader(header)
    ensures HeaderLine(header.name + [':'] + header.value) == Usable(header)
  {
    hide IsSpace, Denied, NameChar, LowerChar, ControlChar;
    var body := header.name + [':'] + header.value;
    NameReads(header.name);
    IndexAfter(header.name, header.value, ':');
    assert body[|header.name|] == ':';
    assert body[..|header.name|] == header.name && body[|header.name| + 1..] == header.value;
    TrimKeeps(header.name);
    TrimKeeps(header.value);
  }

  lemma PrintedShape(header: Header)
    requires WritableHeader(header)
    ensures
      var line := PrintHeader(header);
      && |line| > 0 && line[0] == ' ' && '\n' !in line && !EndsWith(line, "\r")
      && header.name[0] == (header.name + [':'] + header.value)[0] && header.name[0] != '#'
  {
    hide IsSpace, NameChar, Denied, ControlChar;
    LineEndIsSpace();
    NameReads(header.name);
    ValueHasNoLineEnd(header.value);
    var line := PrintHeader(header);
    assert line[|line| - 1] == if |header.value| > 0 then header.value[|header.value| - 1] else ':';
  }

  lemma PrintedHeaderLine(header: Header)
    requires WritableHeader(header)
    ensures LineOf(PrintHeader(header)) == Indented(Usable(header))
    ensures '\n' !in PrintHeader(header) && !EndsWith(PrintHeader(header), "\r")
  {
    hide IsSpace, HeaderLine, Trim, WritableHeader, PrintHeader, EndsWith;
    PrintedTrims(header);
    PrintedReads(header);
    PrintedShape(header);
    LineEndIsSpace();
    assert !StartsWith(header.name + [':'] + header.value, "#");
  }

  lemma PrintedPatternLine(pattern: string)
    requires WritablePattern(pattern)
    ensures LineOf(pattern) == Opens(pattern)
    ensures '\n' !in pattern && !EndsWith(pattern, "\r") && Unmarked(pattern) == pattern && |pattern| > 0
  {
    hide IsSpace, HeaderLine, RedirectsFile.HasMisplacedSplat;
    LineEndIsSpace();
    TrimKeeps(pattern);
  }

  // --- A whole printed file ---

  lemma {:induction false} SetNew(headers: seq<Header>, header: Header)
    requires header.name !in HeaderNames(headers) && header.name != "__proto__"
    ensures SetHeader(headers, header) == headers + [header]
  {
    if |headers| > 0 {
      SetNew(headers[1..], header);
      assert headers + [header] == [headers[0]] + (headers[1..] + [header]);
    }
  }

  lemma {:induction false} DistinctPrefix(headers: seq<Header>, i: nat)
    requires i < |headers| && DistinctNames(headers)
    ensures DistinctNames(headers[..i]) && headers[i].name !in HeaderNames(headers[..i])
    ensures HeaderNames(headers[..i]) <= HeaderNames(headers) && headers[i].name in HeaderNames(headers)
  {
    if i > 0 {
      DistinctPrefix(headers[1..], i - 1);
      assert headers[..i][1..] == headers[1..][..i - 1];
      assert headers[..i][0] == headers[0];
    } else {
      assert headers[..i] == [];
    }
  }

  lemma {:induction false} CountedPrefix(headers: seq<Header>, i: nat)
    requires i <= |headers|
    ensures Counted(headers[..i]) <= Counted(headers)
  {
    if i == |headers| {
      assert headers[..i] == headers;
    } else {
      CountedPrefix(headers[..|headers| - 1], i);
      assert headers[..|headers| - 1][..i] == headers[..i];
    }
  }

  /** The state after the first `i` headers of a block. */
  function Within(before: seq<HeaderRule>, rule: HeaderRule, i: nat): State
    requires i <= |rule.headers|
  {
    State(before + [HeaderRule(rule.pattern, rule.headers[..i])], true, Counted(rule.headers[..i]), [])
  }

  lemma NextHeader(before: seq<HeaderRule>, rule: HeaderRule, i: nat)
    requires i < |rule.headers| && WritableHeaders(rule.headers)
    ensures AddHeader(Within(before, rule, i), rule.headers[i]) == Going(Within(before, rule, i + 1))
  {
    hide WritableHeader;
    var header, done := rule.headers[i], rule.headers[..i];
    assert header.name != "__proto__" by { assert WritableHeader(header); ProtoIsNotWritable(header); }
    DistinctPrefix(rule.headers, i);
    SetNew(done, header);
    CountedPrefix(rule.headers, i + 1);
    assert rule.headers[..i + 1] == done + [header];
    assert rule.headers[..i + 1][..i] == done;
    var state := Within(before, rule, i);
    assert state.rules[..|state.rules| - 1] == before;
  }

  lemma ProtoIsNotWritable(header: Header)
    requires WritableHeader(header)
    ensures header.name != "__proto__"
  {
  }

  lemma ScanNext(lines: seq<string>, line: string)
    requires Scan(lines).Going?
    ensures Scan(lines + [line]) == Step(Scan(lines).state, LineOf(line), |lines| + 1)
  {
    hide Step, LineOf;
    assert (lines + [line])[..|lines|] == lines;
  }

  lemma OpensBlock(state: State, rule: HeaderRule, number: nat)
    requires |state.rules| < 100 && state.warnings == []
    ensures Step(state, Opens(rule.pattern), number) == Going(Within(state.rules, rule, 0))
  {
    assert rule.headers[..0] == [];
  }

  lemma FillsBlock(state: State, rule: HeaderRule, i: nat, number: nat)
    requires i < |rule.headers| && WritableHeaders(rule.headers)
    ensures Step(Within(state.rules, rule, i), Indented(Usable(rule.headers[i])), number) == Going(Within(state.rules, rule, i + 1))
  {
    NextHeader(state.rules, rule, i);
    hide AddHeader, WritableHeaders;
  }

  lemma {:induction false} ScanBlock(lines: seq<string>, state: State, rule: HeaderRule, i: nat)
    requires i <= |rule.headers| && Writable(rule)
    requires Scan(lines) == Going(state) && |state.rules| < 100 && state.warnings == []
    ensures Scan(lines + PrintBlock(rule)[..i + 1]) == Going(Within(state.rules, rule, i))
  {
    hide LineOf, WritablePattern, WritableHeaders, PrintHeader, Step, Scan, Within;
    var block := PrintBlock(rule);
    if i == 0 {
      PrintedPatternLine(rule.pattern);
      assert lines + block[..1] == lines + [rule.pattern];
      ScanNext(lines, rule.pattern);
      OpensBlock(state, rule, |lines| + 1);
    } else {
      ScanBlock(lines, state, rule, i - 1);
      var header := rule.headers[i - 1];
      HeaderIsWritable(rule.headers, i - 1);
      PrintedHeaderLine(header);
      var before := lines + block[..i];
      assert lines + block[..i + 1] == before + [PrintHeader(header)];
      ScanNext(before, PrintHeader(header));
      FillsBlock(state, rule, i - 1, |before| + 1);
    }
  }

  lemma HeaderIsWritable(headers: seq<Header>, i: nat)
    requires i < |headers| && WritableHeaders(headers)
    ensures WritableHeader(headers[i])
  {
  }

  lemma WholeBlock(rule: HeaderRule)
    ensures |PrintBlock(rule)| == |rule.headers| + 1 && PrintBlock(rule)[..|rule.headers| + 1] == PrintBlock(rule)
  {
  }

  lemma EmptyScan()
    ensures Scan([]) == Going(State([], false, 0, []))
  {
  }

  /** The state after a printed file. */
  lemma {:induction false} ScanPrinted(rules: seq<HeaderRule>)
    requires |rules| <= 100 && forall i | 0 <= i < |rules| :: Writable(rules[i])
    ensures Scan(PrintLines(rules)).Going?
    ensures Scan(PrintLines(rules)).state.rules == rules && Scan(PrintLines(rules)).state.warnings == []
  {
    hide Writable, Scan, PrintBlock;
    if |rules| == 0 {
      EmptyScan();
    } else {
      var init, rule := rules[..|rules| - 1], rules[|rules| - 1];
      ScanPrinted(init);
      ScanBlock(PrintLines(init), Scan(PrintLines(init)).state, rule, |rule.headers|);
      WholeBlock(rule);
      assert rule.headers[..|rule.headers|] == rule.headers;
      assert init + [rule] == rules;
    }
  }

  predicate PlainLine(line: string) {
    '\n' !in line && !EndsWith(line, "\r")
  }

  lemma BlockIsPlain(rule: HeaderRule)
    requires Writable(rule)
    ensures forall i | 0 <= i < |PrintBlock(rule)| :: PlainLine(PrintBlock(rule)[i])
    ensures Unmarked(PrintBlock(rule)[0]) == PrintBlock(rule)[0]
  {
    hide WritablePattern, WritableHeader, PrintHeader, LineOf, Unmarked, EndsWith;
    PrintedPatternLine(rule.pattern);
    forall i | 0 <= i < |rule.headers|
      ensures PlainLine(PrintHeader(rule.headers[i]))
    {
      PrintedHeaderLine(rule.headers[i]);
    }
  }

  lemma {:induction false} PrintedIsPlain(rules: seq<HeaderRule>)
    requires forall i | 0 <= i < |rules| :: Writable(rules[i])
    ensures forall i | 0 <= i < |PrintLines(rules)| :: PlainLine(PrintLines(rules)[i])
    ensures |rules| > 0 ==> |PrintLines(rules)| > 0 && Unmarked(PrintLines(rules)[0]) == PrintLines(rules)[0]
  {
    hide Writable, PlainLine, Unmarked;
    if |rules| > 0 {
      PrintedIsPlain(rules[..|rules| - 1]);
      BlockIsPlain(rules[|rules| - 1]);
    }
  }

  lemma {:induction false} AllUsable(rules: seq<HeaderRule>)
    requires forall i | 0 <= i < |rules| :: |rules[i].headers| > 0
    ensures Usables(rules) == rules
  {
    if |rules| > 0 {
      AllUsable(rules[..|rules| - 1]);
    }
  }

  lemma EmptyFile()
    ensures Lines(Print([])) == [""] && Scan([""]) == Going(State([], false, 0, []))
  {
    assert [""][..0] == [];
    assert LineOf("") == Skipped;
  }

  /** Printing rules within the limits and parsing the text gives the rules back, with no warning. */
  lemma HeadersRoundTrip(rules: seq<HeaderRule>)
    requires |rules| <= 100 && forall i | 0 <= i < |rules| :: Writable(rules[i])
    requires ByteLength(Print(rules)) <= 65536
    ensures Parsed(Print(rules)) == Accepted(rules, [])
  {
    hide WritablePattern, WritableHeaders, Lines, Scan, PrintLines, ByteLength, Unmarked, EndsWith, Join;
    if |rules| == 0 {
      EmptyFile();
    } else {
      PrintedIsPlain(rules);
      LinesOfJoin(PrintLines(rules));
      ScanPrinted(rules);
    }
    AllUsable(rules);
  }

  // --- And nothing else is ever parsed ---

  lemma LowerHash(c: char)
    requires c != '#'
    ensures LowerChar(c) != '#'
  {
  }

  lemma TrimKeepsFirst(s: string)
    requires |s| > 0 && !IsSpace(s[0])
    ensures |Trim(s)| > 0 && Trim(s)[0] == s[0]
  {
    hide IsSpace;
    TrimEndTrims(s);
  }

  lemma ReadHeaderIsWritable(trimmed: string)
    requires |trimmed| > 0 && !IsSpace(trimmed[0]) && trimmed[0] != '#'
    requires HeaderLine(trimmed).Usable? && HeaderLine(trimmed).header.name != "__proto__"
    ensures WritableHeader(HeaderLine(trimmed).header)
  {
    hide IsSpace, NameChar, ControlChar, Denied, LowerChar, Trim;
    var colon := IndexOf(trimmed, ':');
    TrimTrims(trimmed[colon + 1..]);
    TrimKeepsFirst(trimmed[..colon]);
    LowerHash(trimmed[0]);
  }

  lemma LineIsWritable(text: string)
    ensures LineOf(text).Opens? ==> WritablePattern(LineOf(text).pattern) || '\n' in text
    ensures
      var line := LineOf(text);
      line.Indented? && line.content.Usable? && line.content.header.name != "__proto__" ==> WritableHeader(line.content.header)
  {
    hide HeaderLine, Trim, IsSpace, WritableHeader, RedirectsFile.HasMisplacedSplat;
    var trimmed := Trim(text);
    TrimTrims(text);
    var line := LineOf(text);
    if line.Indented? && line.content.Usable? && line.content.header.name != "__proto__" {
      ReadHeaderIsWritable(trimmed);
    }
  }

  lemma {:induction false} CountedCons(header: Header, rest: seq<Header>)
    ensures Counted([header] + rest) == Counted([header]) + Counted(rest)
  {
    var all := [header] + rest;
    if |rest| > 0 {
      CountedCons(header, rest[..|rest| - 1]);
      assert all[..|all| - 1] == [header] + rest[..|rest| - 1];
    } else {
      assert all == [header];
    }
  }

  /** Setting a header counts when its name is new to the object. */
  lemma {:induction false} CountedSet(headers: seq<Header>, header: Header)
    requires header.name != "__proto__"
    ensures Counted(SetHeader(headers, header)) == Counted(headers) + if Defined(headers, header.name) then 0 else 1
  {
    hide Redirects.INHERITED;
    CountedOne(header);
    if |headers| > 0 {
      var first, rest := headers[0], headers[1..];
      assert headers == [first] + rest;
      CountedCons(first, rest);
      CountedOne(first);
      if first.name == header.name {
        CountedCons(header, rest);
      } else {
        CountedSet(rest, header);
        CountedCons(first, SetHeader(rest, header));
      }
    }
  }

  lemma CountedOne(header: Header)
    ensures Counted([header]) == if header.name in Redirects.INHERITED then 0 else 1
  {
    assert [header][..0] == [];
  }

  lemma {:induction false} SetKeepsWritable(headers: seq<Header>, header: Header)
    requires forall i | 0 <= i < |headers| :: WritableHeader(headers[i])
    requires header.name != "__proto__" ==> WritableHeader(header)
    ensures forall i | 0 <= i < |SetHeader(headers, header)| :: WritableHeader(SetHeader(headers, header)[i])
  {
    hide WritableHeader;
    if |headers| > 0 {
      SetKeepsWritable(headers[1..], header);
    }
  }

  /** What holds of the rules after any number of lines. */
  ghost predicate Held(state: State) {
    && |state.rules| <= 100
    && (forall i | 0 <= i < |state.rules| :: WritablePattern(state.rules[i].pattern) && WritableHeaders(state.rules[i].headers))
    && (state.open ==> |state.rules| > 0 && state.count == Counted(state.rules[|state.rules| - 1].headers))
  }

  lemma AddHeaderHolds(state: State, header: Header)
    requires Held(state) && state.open && AddHeader(state, header).Going?
    requires header.name != "__proto__" ==> WritableHeader(header)
    ensures Held(AddHeader(state, header).state)
  {
    hide WritablePattern, WritableHeader;
    var headers := state.rules[|state.rules| - 1].headers;
    SetKeepsWritable(headers, header);
    if header.name != "__proto__" {
      CountedSet(headers, header);
      SetHeaderNames(headers, header);
    } else {
      ProtoIsDefined(headers);
    }
    hide Defined, SetHeader;
  }

  lemma ProtoIsDefined(headers: seq<Header>)
    ensures Defined(headers, "__proto__")
  {
  }

  lemma StepHolds(state: State, text: string, number: nat)
    requires Held(state) && Step(state, LineOf(text), number).Going? && '\n' !in text
    ensures Held(Step(state, LineOf(text), number).state)
  {
    hide WritablePattern, WritableHeader, LineOf, AddHeader;
    LineIsWritable(text);
    var line := LineOf(text);
    if state.open && line.Indented? && line.content.Usable? {
      AddHeaderHolds(state, line.content.header);
    } else if line.Opens? {
      NothingSet();
    }
  }

  lemma NothingSet()
    ensures WritableHeaders([]) && Counted([]) == 0
  {
  }

  lemma {:induction false} ScanHolds(lines: seq<string>)
    requires Scan(lines).Going? && forall i | 0 <= i < |lines| :: '\n' !in lines[i]
    ensures Held(Scan(lines).state)
  {
    hide LineOf, Step, WritablePattern, WritableHeaders;
    if |lines| > 0 {
      var init := lines[..|lines| - 1];
      ScanHolds(init);
      StepHolds(Scan(init).state, lines[|lines| - 1], |lines|);
    }
  }

  lemma {:induction false} UsablesAreWritable(rules: seq<HeaderRule>)
    requires forall i | 0 <= i < |rules| :: WritablePattern(rules[i].pattern) && WritableHeaders(rules[i].headers)
    ensures |Usables(rules)| <= |rules| && forall i | 0 <= i < |Usables(rules)| :: Writable(Usables(rules)[i])
  {
    hide WritablePattern, WritableHeaders;
    if |rules| > 0 {
      UsablesAreWritable(rules[..|rules| - 1]);
    }
  }

  /** Every accepted file gives rules within the limits, each writable. */
  lemma AcceptedIsWritable(text: string)
    requires Parsed(text).Accepted?
    ensures |Parsed(text).rules| <= 100
    ensures forall i | 0 <= i < |Parsed(text).rules| :: Writable(Parsed(text).rules[i])
  {
    hide WritablePattern, WritableHeaders, Lines, Scan;
    LinesHaveNoLineEnd(text);
    ScanHolds(Lines(text));
    UsablesAreWritable(Scan(Lines(text)).state.rules);
  }

  // --- The limit of twenty ---

  /** How many headers a rule may have: twenty, and one more only for a `constructor`. */
  lemma {:induction false} CountedBounds(headers: seq<Header>)
    requires DistinctNames(headers) && forall i | 0 <= i < |headers| :: WritableHeader(headers[i])
    ensures |headers| == Counted(headers) + if "constructor" in HeaderNames(headers) then 1 else 0
  {
    hide WritableHeader;
    if |headers| > 0 {
      var first, rest := headers[0], headers[1..];
      CountedBounds(rest);
      assert headers == [first] + rest;
      CountedCons(first, rest);
      CountedOne(first);
      assert first.name in Redirects.INHERITED <==> first.name == "constructor" by { LowerInherited(first); }
    }
  }

  /** The other inherited names have a capital letter, so no header name is one of them. */
  lemma Capitals(name: string)
    requires name in Redirects.INHERITED && name != "constructor" && name != "__proto__"
    ensures exists i :: 0 <= i < |name| && 'A' <= name[i] <= 'Z'
  {
    if name == "valueOf" { assert name[5] == 'O'; }
    else if name == "hasOwnProperty" { assert name[3] == 'O'; }
    else if name == "toString" { assert name[2] == 'S'; }
    else if name == "toLocaleString" { assert name[2] == 'L'; }
    else if name == "isPrototypeOf" { assert name[2] == 'P'; }
    else if name == "propertyIsEnumerable" { assert name[8] == 'I'; }
    else if name == "__defineGetter__" { assert name[8] == 'G'; }
    else if name == "__defineSetter__" { assert name[8] == 'S'; }
    else if name == "__lookupGetter__" { assert name[8] == 'G'; }
    else { assert name[8] == 'S'; }
  }

  lemma CapitalIsNoNameChar(c: char)
    requires 'A' <= c <= 'Z'
    ensures !NameChar(c)
  {
  }

  /** Of the inherited names, one passes for a header name. */
  lemma LowerInherited(header: Header)
    requires WritableHeader(header)
    ensures header.name in Redirects.INHERITED <==> header.name == "constructor"
  {
    hide WritableValue, Denied, NameChar;
    var name := header.name;
    if name in Redirects.INHERITED && name != "constructor" {
      Capitals(name);
      var i :| 0 <= i < |name| && 'A' <= name[i] <= 'Z';
      CapitalIsNoNameChar(name[i]);
      assert false;
    }
  }

  /** The limit as it is met: a rule has at most twenty headers beside `constructor`. */
  lemma HeaderLimit(text: string, i: nat)
    requires Parsed(text).Accepted? && i < |Parsed(text).rules|
    ensures
      var headers := Parsed(text).rules[i].headers;
      && "__proto__" !in HeaderNames(headers)
      && |headers| <= 20 + if "constructor" in HeaderNames(headers) then 1 else 0
  {
    hide WritablePattern, WritableHeader, Parsed;
    AcceptedIsWritable(text);
    var headers := Parsed(text).rules[i].headers;
    assert Writable(Parsed(text).rules[i]);
    CountedBounds(headers);
    NoProto(headers);
  }

  lemma {:induction false} NoProto(headers: seq<Header>)
    requires forall i | 0 <= i < |headers| :: WritableHeader(headers[i])
    ensures "__proto__" !in HeaderNames(headers)
  {
    hide WritableHeader;
    if |headers| > 0 {
      ProtoIsNotWritable(headers[0]);
      NoProto(headers[1..]);
    }
  }

  /** A name of `n` letters. */
  function LongName(n: nat): string {
    seq(n, i => 'h')
  }

  function ManyHeaders(n: nat): seq<Header> {
    if n == 0 then [Header("constructor", "")] else [Header(LongName(n), "")] + ManyHeaders(n - 1)
  }

  lemma {:induction false} ManyHeadersAreMany(n: nat)
    ensures |ManyHeaders(n)| == n + 1 && DistinctNames(ManyHeaders(n))
    ensures forall m | m > n :: LongName(m) !in HeaderNames(ManyHeaders(n))
    ensures "constructor" in HeaderNames(ManyHeaders(n))
    ensures forall i | 0 <= i <= n :: |ManyHeaders(n)[i].name| <= n + 11 && |ManyHeaders(n)[i].value| == 0
  {
    assert "constructor"[0] == 'c';
    if n > 0 {
      ManyHeadersAreMany(n - 1);
      forall m | m > n
        ensures LongName(m) !in HeaderNames(ManyHeaders(n))
      {
        assert |LongName(m)| == m && |LongName(n)| == n;
      }
    } else {
      forall m: nat | m > 0
        ensures LongName(m)[0] == 'h' && LongName(m) !in HeaderNames(ManyHeaders(0))
      {
      }
    }
  }

  lemma LongNameIsWritable(n: nat)
    requires n > 0
    ensures WritableHeader(Header(LongName(n), ""))
  {
    var name := LongName(n);
    assert name[0] == 'h';
    assert !StartsWith(name, "access-control-");
  }

  lemma ConstructorIsWritable()
    ensures WritableHeader(Header("constructor", ""))
  {
  }

  lemma {:induction false} ManyHeadersAreWritable(n: nat)
    ensures forall i | 0 <= i < |ManyHeaders(n)| :: WritableHeader(ManyHeaders(n)[i])
  {
    hide WritableHeader;
    ConstructorIsWritable();
    if n > 0 {
      LongNameIsWritable(n);
      ManyHeadersAreWritable(n - 1);
    }
  }

  lemma {:induction false} JoinIsShort(lines: seq<string>, width: nat)
    requires forall i | 0 <= i < |lines| :: |lines[i]| <= width
    ensures |Join(lines, '\n')| <= |lines| * (width + 1)
  {
    if |lines| > 1 {
      JoinIsShort(lines[1..], width);
    }
  }

  lemma {:induction false} BytesOfChars(s: string)
    ensures ByteLength(s) <= 4 * |s|
  {
    if |s| > 0 {
      BytesOfChars(s[1..]);
    }
  }

  /** Twenty-one headers on one rule pass, when one of them is `constructor`. */
  lemma TwentyOneHeadersPass() returns (text: string)
    ensures Parsed(text).Accepted? && Parsed(text).warnings == []
    ensures |Parsed(text).rules| == 1 && |Parsed(text).rules[0].headers| == 21
  {
    hide WritableHeader, Parsed, ByteLength, ManyHeaders;
    var headers := ManyHeaders(20);
    var rule := HeaderRule("/", headers);
    ManyHeadersAreMany(20);
    ManyHeadersAreWritable(20);
    CountedBounds(headers);
    RootIsWritable();
    assert [rule][..0] == [];
    assert PrintLines([rule]) == PrintBlock(rule);
    JoinIsShort(PrintBlock(rule), 40);
    text := Print([rule]);
    BytesOfChars(text);
    HeadersRoundTrip([rule]);
  }

  lemma RootIsWritable()
    ensures WritablePattern("/")
  {
    SplitCons("", "", '/');
    assert "" + ['/'] + "" == "/";
    assert Split("/", '/') == ["", ""];
  }
}
