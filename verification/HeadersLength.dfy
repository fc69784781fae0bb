/** Printed `_headers` rules (core/site/rules.ts) are no longer than the file they came from, so what files give can always be written. */
module HeadersLength {
  import opened Text
  import opened Characters
  import opened ControlFile
  import opened TextLength
  import opened HeadersFile
  import opened HeadersPrinter

  // --- Rules ---

  function HeadersWeight(headers: seq<Header>): nat {
    if |headers| == 0 then 0 else ByteLength(PrintHeader(headers[0])) + 1 + HeadersWeight(headers[1..])
  }

  function RulesWeight(rules: seq<HeaderRule>): nat {
    if |rules| == 0 then 0
    else
      var rule := rules[|rules| - 1];
      RulesWeight(rules[..|rules| - 1]) + ByteLength(rule.pattern) + 1 + HeadersWeight(rule.headers)
  }

  function PrintHeaders(headers: seq<Header>): seq<string> {
    seq(|headers|, i requires 0 <= i < |headers| => PrintHeader(headers[i]))
  }

  lemma {:induction false} HeadersWeigh(headers: seq<Header>)
    ensures Weight(PrintHeaders(headers)) == HeadersWeight(headers)
  {
    hide ByteLength, PrintHeader, Weight;
    if |headers| == 0 {
      assert PrintHeaders(headers) == [];
      NothingWeighs();
    } else {
      HeadersWeigh(headers[1..]);
      assert PrintHeaders(headers) == [PrintHeader(headers[0])] + PrintHeaders(headers[1..]);
      WeightAdds([PrintHeader(headers[0])], PrintHeaders(headers[1..]));
      WeightOfOne(PrintHeader(headers[0]));
    }
  }

  lemma {:induction false} RulesWeigh(rules: seq<HeaderRule>)
    ensures Weight(PrintLines(rules)) == RulesWeight(rules)
  {
    hide ByteLength, PrintHeader, Weight, HeadersWeight;
    if |rules| == 0 {
      NothingWeighs();
    } else {
      var init, rule := rules[..|rules| - 1], rules[|rules| - 1];
      RulesWeigh(init);
      WeightAdds(PrintLines(init), PrintBlock(rule));
      assert PrintBlock(rule) == [rule.pattern] + PrintHeaders(rule.headers);
      WeightAdds([rule.pattern], PrintHeaders(rule.headers));
      WeightOfOne(rule.pattern);
      HeadersWeigh(rule.headers);
    }
  }

  lemma {:induction false} SetWeighs(headers: seq<Header>, header: Header)
    ensures HeadersWeight(SetHeader(headers, header)) <= HeadersWeight(headers) + ByteLength(PrintHeader(header)) + 1
  {
    hide ByteLength, PrintHeader;
    if |headers| > 0 && header.name != "__proto__" {
      if headers[0].name == header.name {
        assert ([header] + headers[1..])[1..] == headers[1..];
      } else {
        SetWeighs(headers[1..], header);
        assert ([headers[0]] + SetHeader(headers[1..], header))[1..] == SetHeader(headers[1..], header);
      }
    }
  }

  /** A header takes no more bytes printed than in its line, without the indentation. */
  lemma HeaderIsNoLonger(trimmed: string)
    requires HeaderLine(trimmed).Usable?
    ensures ByteLength(PrintHeader(HeaderLine(trimmed).header)) <= ByteLength(trimmed) + 1
  {
    hide ByteLength, Trim, Lower, IsSpace, HeaderName, Denied, ControlChar;
    var colon, header := IndexOf(trimmed, ':'), HeaderLine(trimmed).header;
    var before, after := trimmed[..colon], trimmed[colon + 1..];
    TrimIsShorter(before);
    LowerIsNoLonger(Trim(before));
    TrimIsShorter(after);
    BytesAdd(before, [':'] + after);
    BytesAdd([':'], after);
    assert before + ([':'] + after) == trimmed;
    BytesAdd([' '], header.name + [':'] + header.value);
    BytesAdd(header.name + [':'], header.value);
    BytesAdd(header.name, [':']);
    LineEndIsOne();
  }

  /** What a line gives takes no more bytes printed. */
  lemma LineIsNoLonger(text: string)
    ensures LineOf(text).Opens? ==> ByteLength(LineOf(text).pattern) <= ByteLength(text)
    ensures LineOf(text).Indented? && LineOf(text).content.Usable?
        ==> ByteLength(PrintHeader(LineOf(text).content.header)) <= ByteLength(text)
  {
    hide ByteLength, Trim, IsSpace, HeaderLine, PrintHeader, RedirectsFile.HasMisplacedSplat;
    TrimIsShorter(text);
    if LineOf(text).Indented? && LineOf(text).content.Usable? { HeaderIsNoLonger(Trim(text)); }
  }

  lemma AddWeighs(state: State, header: Header)
    requires |state.rules| > 0 && AddHeader(state, header).Going?
    ensures RulesWeight(AddHeader(state, header).state.rules) <= RulesWeight(state.rules) + ByteLength(PrintHeader(header)) + 1
  {
    hide ByteLength, PrintHeader, HeadersWeight, SetHeader, Defined;
    var last := |state.rules| - 1;
    var rule := state.rules[last];
    SetWeighs(rule.headers, header);
    var updated := rule.(headers := SetHeader(rule.headers, header));
    assert (state.rules[..last] + [updated])[..last] == state.rules[..last];
  }

  lemma OpenWeighs(rules: seq<HeaderRule>, pattern: string)
    ensures RulesWeight(rules + [HeaderRule(pattern, [])]) == RulesWeight(rules) + ByteLength(pattern) + 1
  {
    hide ByteLength;
    assert (rules + [HeaderRule(pattern, [])])[..|rules|] == rules;
  }

  lemma StepWeighs(state: State, text: string, number: nat)
    requires Step(state, LineOf(text), number).Going?
    ensures RulesWeight(Step(state, LineOf(text), number).state.rules) <= RulesWeight(state.rules) + ByteLength(text) + 1
  {
    hide ByteLength, PrintHeader, LineOf, RulesWeight, AddHeader;
    var line := LineOf(text);
    LineIsNoLonger(text);
    if state.open && |state.rules| > 0 && line.Indented? && line.content.Usable? {
      AddWeighs(state, line.content.header);
    } else if line.Opens? {
      OpenWeighs(state.rules, line.pattern);
    }
  }

  lemma {:induction false} ScanWeighs(lines: seq<string>)
    requires Scan(lines).Going?
    ensures RulesWeight(Scan(lines).state.rules) <= Weight(lines)
  {
    hide ByteLength, LineOf, Step;
    if |lines| > 0 {
      var init := lines[..|lines| - 1];
      ScanWeighs(init);
      StepWeighs(Scan(init).state, lines[|lines| - 1], |lines|);
    }
  }

  lemma {:induction false} UsablesWeigh(rules: seq<HeaderRule>)
    ensures RulesWeight(Usables(rules)) <= RulesWeight(rules)
  {
    hide ByteLength, HeadersWeight;
    if |rules| > 0 {
      var init, last := rules[..|rules| - 1], rules[|rules| - 1];
      UsablesWeigh(init);
      if |last.headers| > 0 {
        assert (Usables(init) + [last])[..|Usables(init)|] == Usables(init);
      } else {
        assert Usables(init) + [] == Usables(init);
      }
    }
  }

  /** Printing what was read never gives a longer file. */
  lemma PrintedIsNoLonger(text: string)
    requires Parsed(text).Accepted?
    ensures ByteLength(Print(Parsed(text).rules)) <= ByteLength(text)
  {
    hide ByteLength, Lines, Scan, Usables, Weight, RulesWeight, PrintLines, Join;
    var rules := Scan(Lines(text)).state.rules;
    LinesWeigh(text);
    ScanWeighs(Lines(text));
    UsablesWeigh(rules);
    RulesWeigh(Usables(rules));
    var lines := PrintLines(Usables(rules));
    if |lines| > 0 {
      WeightOfJoin(lines);
    } else {
      NothingPrinted();
    }
  }

  lemma NothingPrinted()
    ensures ByteLength(Join([], '\n')) == 0
  {
  }

  /** The rule lists that files give are exactly the writable ones within the limits, the file's size included. */
  lemma HeadersParsedExactly(rules: seq<HeaderRule>)
    ensures
      (&& |rules| <= 100 && (forall i | 0 <= i < |rules| :: Writable(rules[i]))
       && ByteLength(Print(rules)) <= 65536)
      <==> exists text :: Parsed(text).Accepted? && Parsed(text).rules == rules
  {
    if |rules| <= 100 && (forall i | 0 <= i < |rules| :: Writable(rules[i]))
       && ByteLength(Print(rules)) <= 65536 {
      hide Writable, Print, Parsed, ByteLength;
      HeadersRoundTrip(rules);
      assert Parsed(Print(rules)).rules == rules;
    } else if text :| Parsed(text).Accepted? && Parsed(text).rules == rules {
      AcceptedFits(text);
      hide Writable, Print, Parsed, ByteLength;
      AcceptedIsWritable(text);
      PrintedIsNoLonger(text);
      assert false;
    }
  }

  lemma AcceptedFits(text: string)
    requires Parsed(text).Accepted?
    ensures ByteLength(text) <= 65536
  {
    hide ByteLength, Scan, Lines;
  }
}
