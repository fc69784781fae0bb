/** Printed `_redirects` rules (core/site/rules.ts) are no longer than the file they came from, so what files give can always be written. */
module RedirectsLength {
  import opened Text
  import opened Characters
  import opened ControlFile
  import opened TextLength
  import opened Redirects
  import opened RedirectsFile
  import opened Wrappers

  /** No text of one or two characters is one of the statuses. */
  ghost predicate ReadsNoShorter(number: string -> Option<int>) {
    forall token | |token| < 3 :: number(token).None? || number(token).value !in STATUSES
  }

  lemma {:induction false} BytesAtLeast(s: string)
    ensures ByteLength(s) >= |s|
  {
    if |s| > 0 { BytesAtLeast(s[1..]); }
  }

  lemma {:induction false} WordStops(s: string)
    ensures WordLength(s) < |s| ==> IsSpace(s[WordLength(s)]) && WordLength(s[WordLength(s)..]) == 0
  {
    hide IsSpace;
    if |s| > 0 && !IsSpace(s[0]) {
      WordStops(s[1..]);
      assert s[1 + WordLength(s[1..])..] == s[1..][WordLength(s[1..])..];
    }
  }

  /** Words with one character between them fit in their line. */
  lemma {:induction false} WordsWeigh(s: string)
    ensures Weight(Words(s)) <= ByteLength(s) + 1
    decreases |s|
  {
    hide Weight, ByteLength, WordLength;
    var n := WordLength(s);
    if |s| == 0 {
      NothingWeighs();
    } else if n == 0 {
      WordsWeigh(s[1..]);
      BytesOfPart(s, 1, |s|);
      assert s[1..|s|] == s[1..];
    } else {
      WordStops(s);
      WeightOfOne(s[..n]);
      WeightAdds([s[..n]], Words(s[n..]));
      if n == |s| {
        assert s[n..] == "" && s[..n] == s;
        NothingWeighs();
      } else {
        assert s[n..][1..] == s[n + 1..];
        WordsWeigh(s[n + 1..]);
        BytesAdd(s[..n], s[n..]);
        BytesAdd([s[n]], s[n + 1..]);
        SomeBytes([s[n]]);
        assert s == s[..n] + s[n..] && s[n..] == [s[n]] + s[n + 1..];
      }
    }
  }

  lemma BytesOfRule(rule: Rule)
    ensures ByteLength(PrintRule(rule))
         == ByteLength(rule.from) + 1 + if Explicit(rule) then ByteLength(rule.to) + 1 + ByteLength(StatusToken(rule)) else ByteLength(TargetToken(rule))
  {
    hide ByteLength, StatusToken, TargetToken, Explicit;
    LineEndIsOne();
    var rest := if Explicit(rule) then rule.to + [' '] + StatusToken(rule) else TargetToken(rule);
    BytesAdd(rule.from + [' '], rest);
    BytesAdd(rule.from, [' ']);
    BytesAdd(rule.to + [' '], StatusToken(rule));
    BytesAdd(rule.to, [' ']);
  }

  lemma BytesOfToken(rule: Rule)
    ensures ByteLength(StatusToken(rule)) == 3 + if rule.force then 1 else 0
    ensures ByteLength(TargetToken(rule)) == ByteLength(rule.to) + if rule.force then 1 else 0
  {
    var text := StatusText(rule.status);
    assert text == [text[0], text[1], text[2]];
    ThreeBytes(text[0], text[1], text[2]);
    hide ByteLength;
    BytesAdd(StatusText(rule.status), if rule.force then "!" else "");
    BytesAdd(rule.to, if rule.force then "!" else "");
    MarkIsOne();
  }

  lemma ThreeBytes(a: char, b: char, c: char)
    requires a < '\U{80}' && b < '\U{80}' && c < '\U{80}'
    ensures ByteLength([a, b, c]) == 3
  {
    assert [c][1..] == "" && ByteLength([c]) == 1;
    assert [b, c][1..] == [c] && ByteLength([b, c]) == 2;
    assert [a, b, c][1..] == [b, c];
  }

  lemma MarkIsOne()
    ensures ByteLength("!") == 1 && ByteLength("") == 0
  {
    assert "!"[1..] == "";
  }

  /** The bytes of a last word, with its mark or without. */
  lemma ShornBytes(last: string)
    ensures EndsWith(last, "!") ==> |last| > 0 && last == last[..|last| - 1] + "!" && ByteLength(last) == ByteLength(last[..|last| - 1]) + 1
  {
    if EndsWith(last, "!") {
      hide ByteLength;
      assert last == last[..|last| - 1] + "!";
      BytesAdd(last[..|last| - 1], "!");
      MarkIsOne();
    }
  }

  lemma WeightOfTwo(a: string, b: string)
    ensures Weight([a, b]) == ByteLength(a) + ByteLength(b) + 2
  {
    hide ByteLength, Weight;
    assert [a, b] == [a] + [b];
    WeightAdds([a], [b]);
    WeightOfOne(a);
    WeightOfOne(b);
  }

  lemma WeightOfThree(a: string, b: string, c: string)
    ensures Weight([a, b, c]) == ByteLength(a) + ByteLength(b) + ByteLength(c) + 3
  {
    hide ByteLength, Weight;
    assert [a, b, c] == [a, b] + [c];
    WeightAdds([a, b], [c]);
    WeightOfTwo(a, b);
    WeightOfOne(c);
  }

  /** A rule takes no more bytes printed than its words, one space apart. */
  lemma TokensAreNoShorter(text: string, number: string -> Option<int>)
    requires ParseLine(text, number).Good? && ReadsNoShorter(number)
    ensures ByteLength(PrintRule(ParseLine(text, number).rule)) + 1 <= Weight(Words(Trim(BeforeComment(text))))
  {
    hide ByteLength, Weight, Words, Trim, BeforeComment, HasMisplacedSplat, InternalTarget, EndsWith, PrintRule;
    var tokens, rule := Words(Trim(BeforeComment(text))), ParseLine(text, number).rule;
    var last := tokens[|tokens| - 1];
    ShornBytes(last);
    BytesOfRule(rule);
    BytesOfToken(rule);
    hide StatusToken, TargetToken;
    if |tokens| == 2 {
      assert tokens == [tokens[0], last];
      WeightOfTwo(tokens[0], last);
    } else {
      assert tokens == [tokens[0], tokens[1], last];
      WeightOfThree(tokens[0], tokens[1], last);
      BytesAtLeast(if rule.force then last[..|last| - 1] else last);
    }
  }

  lemma LineIsNoLonger(text: string, number: string -> Option<int>)
    requires ParseLine(text, number).Good? && ReadsNoShorter(number)
    ensures ByteLength(PrintRule(ParseLine(text, number).rule)) <= ByteLength(text)
  {
    hide ByteLength, Weight, Words, Trim, ParseLine, PrintRule;
    TokensAreNoShorter(text, number);
    var before := BeforeComment(text);
    BytesOfPart(text, 0, |before|);
    assert text[0..|before|] == before;
    TrimIsShorter(before);
    WordsWeigh(Trim(before));
  }

  function PrintedLines(rules: seq<Rule>): seq<string> {
    seq(|rules|, i requires 0 <= i < |rules| => PrintRule(rules[i]))
  }

  lemma {:induction false} LinesAreNoLonger(lines: seq<string>, number: string -> Option<int>)
    requires ReadsNoShorter(number)
    ensures Weight(PrintedLines(ParseLines(lines, number).rules)) <= Weight(lines)
  {
    hide ByteLength, ParseLine, PrintRule, ReadsNoShorter;
    if |lines| > 0 {
      var init, last := lines[..|lines| - 1], lines[|lines| - 1];
      LinesAreNoLonger(init, number);
      var before := ParseLines(init, number).rules;
      if ParseLine(last, number).Good? {
        var rule := ParseLine(last, number).rule;
        LineIsNoLonger(last, number);
        assert PrintedLines(before + [rule])[..|before|] == PrintedLines(before);
      }
    }
  }

  /** Printing what was read never gives a longer file. */
  lemma PrintedIsNoLonger(text: string, number: string -> Option<int>)
    requires ReadsNoShorter(number)
    ensures ByteLength(Print(ParsedRedirects(text, number).rules)) <= ByteLength(text)
  {
    hide ByteLength, Lines, ParseLines, Weight, Join, ReadsNoShorter, PrintRule;
    var rules := ParsedRedirects(text, number).rules;
    LinesWeigh(text);
    LinesAreNoLonger(Lines(text), number);
    if |rules| > 0 {
      WeightOfJoin(PrintedLines(rules));
    } else {
      assert PrintedLines(rules) == [];
      NothingPrinted();
    }
  }

  lemma NothingPrinted()
    ensures ByteLength(Join([], '\n')) == 0
  {
  }

  lemma SomeRuleFits(text: string, number: string -> Option<int>)
    ensures |ParsedRedirects(text, number).rules| <= 500
    ensures |ParsedRedirects(text, number).rules| > 0 ==> ByteLength(text) <= 65536
  {
    hide ByteLength, Lines, ParseLines;
  }

  /** The rule lists that files give are exactly the writable ones within the limits, the file's size included. */
  lemma RedirectsParsedExactly(rules: seq<Rule>, number: string -> Option<int>)
    requires ReadsStatuses(number) && ReadsNoShorter(number)
    ensures
      (&& |rules| <= 500 && (forall i | 0 <= i < |rules| :: Writable(rules[i]))
       && ByteLength(Print(rules)) <= 65536)
      <==> exists text :: ParsedRedirects(text, number).rules == rules
  {
    hide Writable, ParsedRedirects, ByteLength, ReadsStatuses, ReadsNoShorter, PrintRule, Join;
    if |rules| <= 500 && (forall i | 0 <= i < |rules| :: Writable(rules[i]))
       && ByteLength(Print(rules)) <= 65536 {
      RedirectsRoundTrip(rules, number);
      assert ParsedRedirects(Print(rules), number).rules == rules;
    } else if text :| ParsedRedirects(text, number).rules == rules {
      SomeRuleFits(text, number);
      ParsedFileIsWritable(text, number);
      PrintedIsNoLonger(text, number);
      if |rules| == 0 {
        assert PrintedLines(rules) == [];
        NothingPrinted();
      }
      assert false;
    }
  }

  lemma PartIsNoLonger(rules: seq<Rule>, i: nat)
    requires i < |rules|
    ensures ByteLength(Print([rules[i]])) <= ByteLength(Print(rules))
  {
    hide ByteLength, Weight, Join, PrintRule;
    var lines := PrintedLines(rules);
    assert PrintedLines([rules[i]]) == [lines[i]];
    WeightOfJoin(lines);
    WeightOfJoin([lines[i]]);
    WeightAdds(lines[..i], [lines[i]]);
    WeightAdds(lines[..i] + [lines[i]], lines[i + 1..]);
    assert lines == lines[..i] + [lines[i]] + lines[i + 1..];
  }

  /** The rules some file gives are exactly the writable ones that fit a file. */
  lemma ParsedExactly(rule: Rule, number: string -> Option<int>)
    requires ReadsStatuses(number) && ReadsNoShorter(number)
    ensures Writable(rule) && ByteLength(Print([rule])) <= 65536
       <==> exists text :: rule in ParsedRedirects(text, number).rules
  {
    hide Writable, Print, ParsedRedirects, ByteLength, ReadsStatuses, ReadsNoShorter;
    if Writable(rule) && ByteLength(Print([rule])) <= 65536 {
      RedirectsRoundTrip([rule], number);
      assert rule in ParsedRedirects(Print([rule]), number).rules;
    } else if text :| rule in ParsedRedirects(text, number).rules {
      var rules := ParsedRedirects(text, number).rules;
      var i :| 0 <= i < |rules| && rules[i] == rule;
      SomeRuleFits(text, number);
      ParsedFileIsWritable(text, number);
      PrintedIsNoLonger(text, number);
      PartIsNoLonger(rules, i);
      assert false;
    }
  }

  /** Parsing, printing and parsing again changes nothing more. */
  lemma PrintingNormalizes(text: string, number: string -> Option<int>)
    requires ReadsStatuses(number) && ReadsNoShorter(number)
    ensures
      var rules := ParsedRedirects(text, number).rules;
      ParsedRedirects(Print(rules), number) == Parsed(rules, [])
  {
    hide Writable, ByteLength, ReadsStatuses, ReadsNoShorter, ParsedRedirects, PrintRule, Join;
    var rules := ParsedRedirects(text, number).rules;
    SomeRuleFits(text, number);
    ParsedFileIsWritable(text, number);
    PrintedIsNoLonger(text, number);
    if |rules| == 0 {
      assert PrintedLines(rules) == [];
      NothingPrinted();
    }
    RedirectsRoundTrip(rules, number);
  }
}
