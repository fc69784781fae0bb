/** What the header rules put on a response (core/site/rules.ts): the last mention of each name. */
module HeaderRules {
  import opened ControlFile
  import opened PatternMatch
  import opened HeadersFile
  import opened Wrappers

  /** The headers of one rule, over what there was. */
  function Applied(headers: seq<Header>, out: map<string, string>): map<string, string> {
    if |headers| == 0 then out else Applied(headers[1..], out[headers[0].name := headers[0].value])
  }

  /** What the rules put on a response for `path`. */
  function Answered(rules: seq<HeaderRule>, path: string): map<string, string> {
    if |rules| == 0 then map[]
    else
      var before, last := Answered(rules[..|rules| - 1], path), rules[|rules| - 1];
      if Matched(last.pattern, path).Some? then Applied(last.headers, before) else before
  }

  method MatchHeaders(rules: seq<HeaderRule>, path: string) returns (out: map<string, string>)
    ensures out == Answered(rules, path)
  {
    hide Matched;
    out := map[];
    var i := 0;
    while i < |rules|
      invariant 0 <= i <= |rules|
      invariant out == Answered(rules[..i], path)
    {
      assert rules[..i + 1][..i] == rules[..i];
      var matched := MatchPattern(rules[i].pattern, path);
      if matched.Some? {
        var headers := rules[i].headers;
        var j := 0;
        while j < |headers|
          invariant 0 <= j <= |headers|
          invariant Applied(headers[j..], out) == Answered(rules[..i + 1], path)
        {
          assert headers[j..][1..] == headers[j + 1..];
          out := out[headers[j].name := headers[j].value];
          j := j + 1;
        }
      }
      i := i + 1;
    }
    assert rules[..i] == rules;
  }

  // --- The block's headers ---

  predicate DistinctNames(headers: seq<Header>) {
    |headers| == 0 || (headers[0].name !in HeaderNames(headers[1..]) && DistinctNames(headers[1..]))
  }

  lemma {:induction false} SetHeaderNames(headers: seq<Header>, header: Header)
    requires DistinctNames(headers) && header.name != "__proto__"
    ensures DistinctNames(SetHeader(headers, header))
    ensures HeaderNames(SetHeader(headers, header)) == HeaderNames(headers) + {header.name}
  {
    if |headers| > 0 {
      var rest := headers[1..];
      if headers[0].name != header.name {
        SetHeaderNames(rest, header);
        assert ([headers[0]] + SetHeader(rest, header))[1..] == SetHeader(rest, header);
      } else {
        assert ([header] + rest)[1..] == rest;
      }
    }
  }

  lemma {:induction false} AppliedElsewhere(headers: seq<Header>, out: map<string, string>, name: string, value: string)
    requires name !in HeaderNames(headers)
    ensures Applied(headers, out[name := value]) == Applied(headers, out)[name := value]
  {
    if |headers| > 0 {
      var next := out[headers[0].name := headers[0].value];
      assert out[name := value][headers[0].name := headers[0].value] == next[name := value];
      AppliedElsewhere(headers[1..], next, name, value);
    }
  }

  /** Setting a header in the block sets it in the answer. */
  lemma {:induction false} AppliedSet(headers: seq<Header>, header: Header, out: map<string, string>)
    requires DistinctNames(headers) && header.name != "__proto__"
    ensures Applied(SetHeader(headers, header), out) == Applied(headers, out)[header.name := header.value]
  {
    if |headers| > 0 {
      var rest := headers[1..];
      if headers[0].name == header.name {
        assert ([header] + rest)[1..] == rest;
        AppliedElsewhere(rest, out, header.name, header.value);
        AppliedElsewhere(rest, out, header.name, headers[0].value);
      } else {
        AppliedSet(rest, header, out[headers[0].name := headers[0].value]);
        assert ([headers[0]] + SetHeader(rest, header))[1..] == SetHeader(rest, header);
      }
    }
  }

  // --- Mentions ---

  /** The pattern of the block a next line would belong to. */
  function BlockOf(lines: seq<string>): Option<string> {
    if |lines| == 0 then None
    else
      match LineOf(lines[|lines| - 1])
      case Opens(pattern) => Some(pattern)
      case BadPattern(_) => None
      case _ => BlockOf(lines[..|lines| - 1])
  }

  /** Line `i` sets `name` for `path`. */
  predicate Mentions(lines: seq<string>, i: nat, path: string, name: string) {
    && i < |lines|
    && LineOf(lines[i]).Indented? && LineOf(lines[i]).content.Usable? && LineOf(lines[i]).content.header.name == name
    && BlockOf(lines[..i]).Some? && Matched(BlockOf(lines[..i]).value, path).Some?
  }

  function ValueAt(lines: seq<string>, i: nat): string
    requires i < |lines| && LineOf(lines[i]).Indented? && LineOf(lines[i]).content.Usable?
  {
    LineOf(lines[i]).content.header.value
  }

  /** The last line of the file that sets `name` for `path`. */
  predicate LastMention(lines: seq<string>, i: nat, path: string, name: string) {
    Mentions(lines, i, path, name) && forall j | i < j < |lines| :: !Mentions(lines, j, path, name)
  }

  /** The answer's value for `name` is that of its last mention, and there is one if and only if it is mentioned. */
  ghost predicate Agrees(lines: seq<string>, path: string, name: string, out: map<string, string>) {
    && (name in out <==> exists i :: Mentions(lines, i, path, name))
    && (forall i | LastMention(lines, i, path, name) :: name in out && out[name] == ValueAt(lines, i))
  }

  /** The parser's state and the lines read so far. */
  ghost predicate Follows(state: State, lines: seq<string>) {
    && (state.open ==> |state.rules| > 0 && BlockOf(lines) == Some(state.rules[|state.rules| - 1].pattern))
    && (!state.open ==> BlockOf(lines).None?)
    && forall i | 0 <= i < |state.rules| :: DistinctNames(state.rules[i].headers)
  }

  /** A line that mentions nothing changes no answer. */
  lemma SilentLine(lines: seq<string>, line: string, path: string, name: string, out: map<string, string>)
    requires Agrees(lines, path, name, out)
    requires !Mentions(lines + [line], |lines|, path, name)
    ensures Agrees(lines + [line], path, name, out)
  {
    hide LineOf, Matched, Mentions, BlockOf;
    SameMentions(lines, line, path, name);
    MentionsInside(lines + [line], path, name);
    if i :| Mentions(lines, i, path, name) {
      MentionsInside(lines, path, name);
      assert Mentions(lines + [line], i, path, name);
    }
    forall i: nat | LastMention(lines + [line], i, path, name)
      ensures LastMention(lines, i, path, name) && ValueAt(lines + [line], i) == ValueAt(lines, i)
    {
      forall j | i < j < |lines|
        ensures !Mentions(lines, j, path, name)
      {
        assert !Mentions(lines + [line], j, path, name);
      }
    }
  }

  lemma MentionsInside(lines: seq<string>, path: string, name: string)
    ensures forall i: nat | Mentions(lines, i, path, name) :: i < |lines| && LineOf(lines[i]).Indented? && LineOf(lines[i]).content.Usable?
  {
  }

  lemma SameMentions(lines: seq<string>, line: string, path: string, name: string)
    ensures forall i | 0 <= i < |lines| :: Mentions(lines + [line], i, path, name) <==> Mentions(lines, i, path, name)
    ensures forall i | 0 <= i < |lines| :: (lines + [line])[i] == lines[i]
  {
    hide LineOf, Matched;
    assert forall i | 0 <= i < |lines| :: (lines + [line])[..i] == lines[..i];
  }

  lemma SpeakingLine(lines: seq<string>, line: string, path: string, name: string, out: map<string, string>)
    requires Mentions(lines + [line], |lines|, path, name)
    requires name in out && out[name] == ValueAt(lines + [line], |lines|)
    ensures Agrees(lines + [line], path, name, out)
  {
    hide LineOf, Matched;
  }

  // --- The parser against its mentions ---

  /** The rules so far answer as the mentions so far. */
  ghost predicate Answers(lines: seq<string>, state: State, path: string, name: string) {
    Follows(state, lines) && Agrees(lines, path, name, Answered(state.rules, path))
  }

  lemma ReplaceLast(rules: seq<HeaderRule>, rule: HeaderRule, header: Header, path: string)
    requires |rules| > 0 && rules[|rules| - 1] == rule && DistinctNames(rule.headers) && header.name != "__proto__"
    ensures
      var updated := rules[..|rules| - 1] + [rule.(headers := SetHeader(rule.headers, header))];
      Answered(updated, path)
      == if Matched(rule.pattern, path).Some? then Answered(rules, path)[header.name := header.value] else Answered(rules, path)
  {
    hide Matched, Applied;
    var updated := rules[..|rules| - 1] + [rule.(headers := SetHeader(rule.headers, header))];
    assert updated[..|updated| - 1] == rules[..|rules| - 1];
    AppliedSet(rule.headers, header, Answered(rules[..|rules| - 1], path));
  }

  lemma SameRules(rules: seq<HeaderRule>, rule: HeaderRule)
    requires |rules| > 0 && rules[|rules| - 1] == rule
    ensures rules[..|rules| - 1] + [rule] == rules
  {
  }

  lemma HeaderLineAnswers(lines: seq<string>, line: string, state: State, path: string, name: string)
    requires Answers(lines, state, path, name) && name != "__proto__"
    requires state.open && LineOf(line).Indented? && LineOf(line).content.Usable?
    requires AddHeader(state, LineOf(line).content.header).Going?
    ensures Answers(lines + [line], AddHeader(state, LineOf(line).content.header).state, path, name)
  {
    hide LineOf, Matched, Answered, Agrees, DistinctNames;
    var header := LineOf(line).content.header;
    var rule := state.rules[|state.rules| - 1];
    assert (lines + [line])[..|lines|] == lines;
    if header.name == "__proto__" {
      SameRules(state.rules, rule);
      SilentLine(lines, line, path, name, Answered(state.rules, path));
    } else {
      SetHeaderNames(rule.headers, header);
      ReplaceLast(state.rules, rule, header, path);
      var out := Answered(AddHeader(state, header).state.rules, path);
      if header.name == name && Matched(rule.pattern, path).Some? {
        SpeakingLine(lines, line, path, name, out);
      } else if Matched(rule.pattern, path).Some? {
        OtherName(lines, path, name, Answered(state.rules, path), header);
        SilentLine(lines, line, path, name, out);
      } else {
        SilentLine(lines, line, path, name, out);
      }
    }
  }

  lemma OtherName(lines: seq<string>, path: string, name: string, out: map<string, string>, header: Header)
    requires Agrees(lines, path, name, out) && header.name != name
    ensures Agrees(lines, path, name, out[header.name := header.value])
  {
    hide Mentions, LastMention;
  }

  /** A block without headers yet answers nothing. */
  lemma NewRuleAnswersNothing(rules: seq<HeaderRule>, pattern: string, path: string)
    ensures Answered(rules + [HeaderRule(pattern, [])], path) == Answered(rules, path)
  {
    hide Matched, Applied;
    var more := rules + [HeaderRule(pattern, [])];
    assert more[..|more| - 1] == rules;
    NothingApplied(Answered(rules, path));
  }

  lemma OpeningLineAnswers(lines: seq<string>, line: string, state: State, path: string, name: string)
    requires Answers(lines, state, path, name) && LineOf(line).Opens?
    requires Step(state, LineOf(line), |lines| + 1).Going?
    ensures Answers(lines + [line], Step(state, LineOf(line), |lines| + 1).state, path, name)
  {
    hide LineOf, Matched, Agrees, Answered;
    assert (lines + [line])[..|lines|] == lines;
    SilentLine(lines, line, path, name, Answered(state.rules, path));
    NewRuleAnswersNothing(state.rules, LineOf(line).pattern, path);
  }

  lemma StepAnswers(lines: seq<string>, line: string, state: State, path: string, name: string)
    requires Answers(lines, state, path, name) && name != "__proto__"
    requires Step(state, LineOf(line), |lines| + 1).Going?
    ensures Answers(lines + [line], Step(state, LineOf(line), |lines| + 1).state, path, name)
  {
    hide LineOf, Matched, Agrees, Answered;
    var kind := LineOf(line);
    if state.open && kind.Indented? && kind.content.Usable? {
      HeaderLineAnswers(lines, line, state, path, name);
    } else if kind.Opens? {
      OpeningLineAnswers(lines, line, state, path, name);
    } else {
      assert (lines + [line])[..|lines|] == lines;
      SilentLine(lines, line, path, name, Answered(state.rules, path));
    }
  }

  lemma NothingApplied(out: map<string, string>)
    ensures Applied([], out) == out
  {
  }

  lemma {:induction false} ScanAnswers(lines: seq<string>, path: string, name: string)
    requires Scan(lines).Going? && name != "__proto__"
    ensures Answers(lines, Scan(lines).state, path, name)
  {
    hide LineOf, Matched, Step;
    if |lines| > 0 {
      var init, line := lines[..|lines| - 1], lines[|lines| - 1];
      ScanAnswers(init, path, name);
      StepAnswers(init, line, Scan(init).state, path, name);
      assert init + [line] == lines;
    }
  }

  /** Blocks without headers answer nothing. */
  lemma {:induction false} UsablesAnswer(rules: seq<HeaderRule>, path: string)
    ensures Answered(Usables(rules), path) == Answered(rules, path)
  {
    hide Matched;
    if |rules| > 0 {
      var init, last := rules[..|rules| - 1], rules[|rules| - 1];
      UsablesAnswer(init, path);
      if |last.headers| > 0 {
        assert (Usables(init) + [last])[..|Usables(init)|] == Usables(init);
      } else {
        assert Usables(init) + [] == Usables(init);
      }
    }
  }

  /**
   * In an accepted file, a response carries a header exactly when a block that matches its path
   * mentions it, and with the value of the last such line; `__proto__` alone is lost.
   */
  lemma LastMentionWins(text: string, path: string, name: string)
    requires Parsed(text).Accepted? && name != "__proto__"
    ensures Agrees(Lines(text), path, name, Answered(Parsed(text).rules, path))
  {
    hide Scan, Agrees, Answered, Lines;
    ScanAnswers(Lines(text), path, name);
    UsablesAnswer(Scan(Lines(text)).state.rules, path);
  }
}
