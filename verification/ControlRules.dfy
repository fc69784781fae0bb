/**
 * What a line of the control files means (core/site/rules.ts), character by character: where a `*` may
 * stand, which targets stay inside the site, which words a line has, which headers it sets in any letter
 * case, and what a target becomes.
 */
module ControlRules {
  import opened Text
  import opened Characters
  import opened ControlFile
  import opened PatternMatch
  import opened Redirects
  import opened RedirectsFile
  import HeadersFile
  import opened Wrappers

  // --- Lines ---

  /** A byte order mark in front is no part of the first line. */
  lemma MarkIsSkipped(text: string)
    requires |text| > 0 ==> text[0] != '\U{FEFF}'
    ensures Lines(['\U{FEFF}'] + text) == Lines(text)
  {
    assert (['\U{FEFF}'] + text)[1..] == text;
  }

  /** A line ends with `\n` or with `\r\n`, and neither is part of it. */
  lemma LineEnds(line: string, rest: string)
    requires '\n' !in line && !EndsWith(line, "\r") && (|line| > 0 ==> line[0] != '\U{FEFF}') && (|rest| > 0 ==> rest[0] != '\U{FEFF}')
    ensures Lines(line + ['\n'] + rest) == [line] + Lines(rest)
    ensures Lines(line + ['\r'] + ['\n'] + rest) == [line] + Lines(rest)
  {
    FirstLine(line, rest);
    FirstLine(line + ['\r'], rest);
    assert EndsWith(line + ['\r'], "\r") && (line + ['\r'])[..|line|] == line;
  }

  lemma FirstLine(line: string, rest: string)
    requires '\n' !in line && (|line| > 0 ==> line[0] != '\U{FEFF}') && (|rest| > 0 ==> rest[0] != '\U{FEFF}')
    ensures Lines(line + ['\n'] + rest) == [DropCarriageReturn(line)] + Lines(rest)
  {
    hide Split, DropCarriageReturn;
    SplitCons(line, rest, '\n');
    assert Unmarked(line + ['\n'] + rest) == line + ['\n'] + rest && Unmarked(rest) == rest;
    var parts := Split(rest, '\n');
    var all := [line] + parts;
    assert forall i | 0 < i < |all| :: all[i] == parts[i - 1];
  }

  // --- Patterns ---

  /** Every `*` is the whole last segment. */
  predicate SplatAtEnd(pattern: string) {
    forall i | 0 <= i < |pattern| && pattern[i] == '*' :: i == |pattern| - 1 && (i == 0 || pattern[i - 1] == '/')
  }

  predicate Misplaced(segments: seq<string>) {
    exists i | 0 <= i < |segments| :: '*' in segments[i] && (segments[i] != "*" || i != |segments| - 1)
  }

  lemma MisplacedCons(head: string, rest: seq<string>)
    requires |rest| > 0
    ensures Misplaced([head] + rest) <==> '*' in head || Misplaced(rest)
  {
    var all := [head] + rest;
    assert all[0] == head;
    if Misplaced(rest) {
      var i :| 0 <= i < |rest| && '*' in rest[i] && (rest[i] != "*" || i != |rest| - 1);
      assert all[i + 1] == rest[i];
    }
  }

  lemma SplatCons(head: string, rest: string)
    requires '/' !in head
    ensures SplatAtEnd(head + ['/'] + rest) <==> '*' !in head && SplatAtEnd(rest)
  {
    var all := head + ['/'] + rest;
    assert all[|head|] == '/';
    if SplatAtEnd(all) {
      forall i | 0 <= i < |head| ensures head[i] != '*' {
        assert all[i] == head[i];
      }
      forall i | 0 <= i < |rest| && rest[i] == '*' ensures i == |rest| - 1 && (i == 0 || rest[i - 1] == '/') {
        assert all[|head| + 1 + i] == rest[i];
        assert i > 0 ==> all[|head| + i] == rest[i - 1];
      }
    } else {
      var i :| 0 <= i < |all| && all[i] == '*' && !(i == |all| - 1 && (i == 0 || all[i - 1] == '/'));
      if i > |head| {
        var j := i - |head| - 1;
        assert rest[j] == '*' && (j > 0 ==> rest[j - 1] == all[i - 1]);
      } else {
        assert head[i] == '*';
      }
    }
  }

  /** A pattern is refused for its `*` exactly when one stands anywhere but alone after the last slash. */
  lemma {:induction false} SplatExactly(pattern: string)
    ensures HasMisplacedSplat(pattern) <==> !SplatAtEnd(pattern)
    decreases |pattern|
  {
    if '/' in pattern {
      var i := IndexOf(pattern, '/');
      var head, rest := pattern[..i], pattern[i + 1..];
      SplatExactly(rest);
      MisplacedCons(head, Split(rest, '/'));
      SplatCons(head, rest);
      assert pattern == head + ['/'] + rest;
      assert Split(pattern, '/') == [head] + Split(rest, '/');
    } else {
      AloneAtEnd(pattern);
      assert Split(pattern, '/') == [pattern] && [pattern][0] == pattern;
    }
  }

  lemma AloneAtEnd(pattern: string)
    requires '/' !in pattern
    ensures SplatAtEnd(pattern) <==> ('*' in pattern ==> pattern == "*")
  {
    if '*' in pattern {
      var i :| 0 <= i < |pattern| && pattern[i] == '*';
      assert i > 0 ==> pattern[i - 1] in pattern;
    }
  }

  /** How the first `k` segments of a pattern stand to those of a path: a name after a colon takes any but an empty one. */
  predicate Agrees(p: seq<string>, s: seq<string>, k: nat) {
    && k <= |p| && k <= |s|
    && forall i | 0 <= i < k ::
         p[i] != "*" && if |p[i]| > 1 && p[i][0] == ':' then s[i] != "" else s[i] == p[i]
  }

  lemma NamedExactly(segment: string)
    ensures Placeholder(segment) <==> |segment| > 1 && segment[0] == ':'
  {
  }

  /** A pattern without a `*` matches the paths that agree with it all through, one with a `*` those that agree up to it; what follows is what it takes. */
  lemma MatchesExactly(pattern: string, path: string, k: nat)
    requires var p := Split(pattern, '/'); k <= |p| && (forall i | 0 <= i < k :: p[i] != "*") && (k < |p| ==> p[k] == "*")
    ensures
      var p, s := Split(pattern, '/'), Split(path, '/');
      && (Matched(pattern, path).Some? <==> Agrees(p, s, k) && (k == |p| ==> |s| == |p|))
      && (Matched(pattern, path).Some? ==> Matched(pattern, path).value.splat == if k < |p| then Join(s[k..], '/') else "")
  {
    hide Split, Join, Placeholder;
    var p, s := Split(pattern, '/'), Split(path, '/');
    assert Star(p) == k;
    forall i | 0 <= i < k ensures Placeholder(p[i]) <==> |p[i]| > 1 && p[i][0] == ':' {
      NamedExactly(p[i]);
    }
  }

  // --- Targets ---

  /** A target is allowed if and only if it starts with one slash, and has no backslash and no `://`. */
  lemma InsideExactly(to: string)
    ensures
      InternalTarget(to)
      <==> && |to| > 0 && to[0] == '/' && (|to| > 1 ==> to[1] != '/')
           && (forall i | 0 <= i < |to| :: to[i] != '\\')
           && (forall i | 0 <= i < |to| - 2 :: !(to[i] == ':' && to[i + 1] == '/' && to[i + 2] == '/'))
  {
    if InternalTarget(to) {
      forall i | 0 <= i < |to| - 2 ensures !(to[i] == ':' && to[i + 1] == '/' && to[i + 2] == '/') {
        assert !StartsWith(to[i..], "://");
        assert to[i..][..3] == [to[i], to[i + 1], to[i + 2]];
      }
      assert |to| > 1 ==> to[..2] == [to[0], to[1]];
    } else if |to| > 0 && to[0] == '/' && (|to| > 1 ==> to[1] != '/') && '\\' !in to {
      var i :| 0 <= i <= |to| && StartsWith(to[i..], "://");
      assert to[i..][..3] == "://";
      assert to[i] == to[i..][..3][0] && to[i + 1] == to[i..][..3][1] && to[i + 2] == to[i..][..3][2];
    }
  }

  /** Where a visitor is sent by a reference: to a path of the same origin, to another origin, or somewhere relative. */
  datatype Destination = SameOrigin(path: string) | OtherOrigin | Relative

  predicate SchemeChar(c: char) {
    'a' <= c <= 'z' || 'A' <= c <= 'Z' || '0' <= c <= '9' || c in "+-."
  }

  /** A scheme in front, as in section 3.1 of RFC 3986. */
  predicate HasScheme(to: string) {
    exists i | 0 < i < |to| :: to[i] == ':' && to[0] in "abcdefghijklmnopqrstuvwxyzABCDEFGHIJKLMNOPQRSTUVWXYZ" && forall j | 0 < j < i :: SchemeChar(to[j])
  }

  /** How a client reads the reference (section 4.2 of RFC 3986); some clients take a backslash for a slash. */
  function Destined(to: string, backslashes: bool): Destination {
    if |to| > 1 && IsSlash(to[0], backslashes) && IsSlash(to[1], backslashes) then OtherOrigin
    else if |to| > 0 && IsSlash(to[0], backslashes) then SameOrigin(to)
    else if HasScheme(to) then OtherOrigin
    else Relative
  }

  predicate IsSlash(c: char, backslashes: bool) {
    c == '/' || (backslashes && c == '\\')
  }

  /** No rule sends a visitor off the site's origin, whichever way the client reads a backslash, and what a path puts into the target does not change that. */
  lemma RedirectsStay(rule: Rule, path: string, backslashes: bool)
    requires Redirect(rule, path).Some?
    ensures Destined(Redirect(rule, path).value.to, backslashes) == SameOrigin(Redirect(rule, path).value.to)
  {
    hide Matched, Substitute, HasScheme, InternalTarget;
    InsideExactly(Redirect(rule, path).value.to);
  }

  // --- The words of a line ---

  predicate Spaces(s: string) {
    forall i | 0 <= i < |s| :: IsSpace(s[i])
  }

  lemma {:induction false} TrimStartBlank(a: string, s: string)
    requires Spaces(a) && (|s| > 0 ==> !IsSpace(s[0]))
    ensures TrimStart(a + s) == s
  {
    hide IsSpace;
    if |a| > 0 {
      assert (a + s)[1..] == a[1..] + s;
      TrimStartBlank(a[1..], s);
    } else {
      assert a + s == s;
    }
  }

  lemma {:induction false} TrimEndBlank(s: string, b: string)
    requires Spaces(b) && (|s| > 0 ==> !IsSpace(s[|s| - 1]))
    ensures TrimEnd(s + b) == s
  {
    hide IsSpace;
    if |b| > 0 {
      assert (s + b)[..|s + b| - 1] == s + b[..|b| - 1];
      TrimEndBlank(s, b[..|b| - 1]);
    } else {
      assert s + b == s;
    }
  }

  /** Trimming takes away all white space at both ends and nothing else. */
  lemma TrimExactly(a: string, s: string, b: string)
    requires Spaces(a) && Spaces(b) && |s| > 0 && Trimmed(s)
    ensures Trim(a + s + b) == s
  {
    hide IsSpace;
    assert a + s + b == a + (s + b);
    TrimStartBlank(a, s + b);
    TrimEndBlank(s, b);
  }

  lemma {:induction false} GapIsSkipped(gap: string, rest: string)
    requires Spaces(gap)
    ensures Words(gap + rest) == Words(rest)
  {
    hide IsSpace;
    if |gap| > 0 {
      assert (gap + rest)[1..] == gap[1..] + rest;
      assert WordLength(gap + rest) == 0;
      GapIsSkipped(gap[1..], rest);
    } else {
      assert gap + rest == rest;
    }
  }

  lemma WordThenGap(word: string, gap: string, rest: string)
    requires |word| > 0 && NoSpace(word) && Spaces(gap) && |gap| > 0
    ensures Words(word + (gap + rest)) == [word] + Words(rest)
  {
    hide IsSpace;
    var more := gap + rest;
    WordEnds(word, more);
    assert (word + more)[..|word|] == word && (word + more)[|word|..] == more;
    GapIsSkipped(gap, rest);
  }

  lemma LineText(body: string, a: string, c: string, comment: string)
    requires Spaces(a) && Spaces(c) && |body| > 0 && Trimmed(body) && '#' !in body
    requires comment == "" || comment[0] == '#'
    ensures Trim(BeforeComment(a + body + c + comment)) == body
  {
    hide IsSpace;
    BlankHasNoMark(a);
    BlankHasNoMark(c);
    var line := a + body + c;
    assert '#' !in line;
    if comment != "" {
      assert line + comment == line + ['#'] + comment[1..];
      IndexAfter(line, comment[1..], '#');
      assert (line + comment)[..|line|] == line;
      assert (line + comment)[|line|] == '#';
    } else {
      assert line + comment == line;
    }
    TrimExactly(a, body, c);
  }

  lemma BlankHasNoMark(s: string)
    requires Spaces(s)
    ensures '#' !in s
  {
  }

  predicate Token(word: string) {
    |word| > 0 && NoSpace(word) && '#' !in word
  }

  lemma TwoWordsBody(from: string, b: string, to: string)
    requires Token(from) && Token(to) && Spaces(b) && |b| > 0
    ensures var body := from + b + to; Trimmed(body) && '#' !in body && Words(body) == [from, to]
  {
    hide IsSpace, Words;
    BlankHasNoMark(b);
    assert from + b + to == from + (b + to);
    WordThenGap(from, b, to);
    WordsOfWord(to);
  }

  /**
   * A line with two words is read as a permanent redirect, forced by a `!` at its end, whatever white space is around
   * them and whatever comment follows; and it is one exactly when its words are in order.
   */
  lemma TwoWordsRead(a: string, from: string, b: string, to: string, c: string, comment: string, number: string -> Option<int>, rule: Rule)
    requires Spaces(a) && Spaces(b) && |b| > 0 && Spaces(c) && (comment == "" || comment[0] == '#')
    requires Token(from) && Token(to)
    ensures
      ParseLine(a + (from + b + to) + c + comment, number) == Good(rule)
      <==> && from[0] == '/' && SplatAtEnd(from) && rule.from == from && rule.status == 301
           && to == rule.to + (if rule.force then "!" else "") && (!rule.force ==> to[|to| - 1] != '!')
           && InternalTarget(rule.to)
  {
    var body := from + b + to;
    TwoWordsBody(from, b, to);
    LineText(body, a, c, comment);
    SplatExactly(from);
    RootedExactly(from);
    ForcedExactly(to, rule.to, rule.force);
    TwoTokensRead(a + body + c + comment, from, to, number);
    hide *;
  }

  lemma RootedExactly(from: string)
    requires |from| > 0
    ensures StartsWith(from, "/") <==> from[0] == '/'
  {
  }

  /** The two ways to read a last word: with the mark that forces, and without. */
  lemma ForcedExactly(last: string, shorn: string, force: bool)
    requires |last| > 0
    ensures
      (force == EndsWith(last, "!") && shorn == if force then last[..|last| - 1] else last)
      <==> (last == shorn + (if force then "!" else "") && (!force ==> last[|last| - 1] != '!'))
  {
    assert EndsWith(last, "!") <==> last[|last| - 1] == '!';
    if last[|last| - 1] == '!' {
      assert last == last[..|last| - 1] + "!";
    }
  }

  lemma ThreeWordsBody(from: string, b: string, to: string, d: string, last: string)
    requires Token(from) && Token(to) && Token(last) && Spaces(b) && |b| > 0 && Spaces(d) && |d| > 0
    ensures var body := from + b + to + d + last; Trimmed(body) && '#' !in body && Words(body) == [from, to, last]
  {
    hide IsSpace, Words;
    BlankHasNoMark(b);
    BlankHasNoMark(d);
    assert from + b + to + d + last == from + (b + (to + (d + last)));
    WordThenGap(from, b, to + (d + last));
    WordThenGap(to, d, last);
    WordsOfWord(last);
  }

  /** The same with a third word: one of five statuses as the language converts it, and the mark is on that. */
  lemma ThreeWordsRead(a: string, from: string, b: string, to: string, d: string, last: string, c: string, comment: string,
                       number: string -> Option<int>, rule: Rule)
    requires Spaces(a) && Spaces(b) && |b| > 0 && Spaces(d) && |d| > 0 && Spaces(c) && (comment == "" || comment[0] == '#')
    requires Token(from) && Token(to) && Token(last)
    ensures
      ParseLine(a + (from + b + to + d + last) + c + comment, number) == Good(rule)
      <==> && from[0] == '/' && SplatAtEnd(from) && rule.from == from && rule.to == to && InternalTarget(to)
           && rule.force == (last[|last| - 1] == '!')
           && number(if rule.force then last[..|last| - 1] else last) == Some(rule.status)
           && (rule.status == 200 || rule.status == 301 || rule.status == 302 || rule.status == 307 || rule.status == 308)
  {
    var body := from + b + to + d + last;
    ThreeWordsBody(from, b, to, d, last);
    LineText(body, a, c, comment);
    SplatExactly(from);
    RootedExactly(from);
    assert EndsWith(last, "!") <==> last[|last| - 1] == '!';
    ThreeTokensRead(a + body + c + comment, from, to, last, number);
    hide *;
  }

  /** A line of any other number of words is no rule, and is warned of unless it is blank or a comment alone. */
  lemma OtherLinesRead(text: string, number: string -> Option<int>)
    ensures
      var n := |Words(Trim(BeforeComment(text)))|;
      && (ParseLine(text, number) == Blank <==> Trim(BeforeComment(text)) == "")
      && (ParseLine(text, number) == Bad(ExpectedFromTo) <==> Trim(BeforeComment(text)) != "" && n < 2)
      && (ParseLine(text, number) == Bad(TooManyFields) <==> n > 3)
  {
    hide BeforeComment, Trim, HasMisplacedSplat, InternalTarget;
    assert Words("") == [];
  }

  // --- Header lines ---

  lemma LowerIsPlain(name: string)
    requires HeadersFile.HeaderName(Lower(name))
    ensures ':' !in name && Trimmed(name) && |name| > 0
  {
    hide IsSpace, LowerChar, HeadersFile.NameChar;
    forall i | 0 <= i < |name| ensures name[i] != ':' && !IsSpace(name[i]) {
      assert HeadersFile.NameChar(Lower(name)[i]);
      PlainIfLowerIs(name[i]);
    }
  }

  lemma PlainIfLowerIs(c: char)
    requires HeadersFile.NameChar(LowerChar(c))
    ensures c != ':' && !IsSpace(c)
  {
    if 'A' <= c <= 'Z' || c == '\U{212A}' {
      assert !IsSpace(c);
    } else {
      NameCharIsPlain(c);
    }
  }

  lemma NameCharIsPlain(c: char)
    requires HeadersFile.NameChar(c)
    ensures c != ':' && !IsSpace(c)
  {
  }

  /** The characters of a header's name, as section 5.6.2 of RFC 9110 has them, in lower case. */
  lemma NameCharsExactly(c: char)
    ensures HeadersFile.NameChar(c) <==> 'a' <= c <= 'z' || '0' <= c <= '9' || c in {'!', '#', '$', '%', '&', '\'', '*', '+', '-', '.', '^', '_', '`', '|', '~'}
  {
  }

  /** A name the server keeps to itself. */
  predicate Kept(name: string) {
    || name == "cache-control" || name == "etag" || name == "last-modified" || name == "content-length"
    || name == "content-encoding" || name == "content-range" || name == "content-type" || name == "accept-ranges"
    || name == "vary" || name == "set-cookie" || name == "www-authenticate" || name == "content-disposition"
    || name == "x-content-type-options"
    || (|name| >= 15 && name[..15] == "access-control-")
  }

  lemma KeptExactly(name: string)
    ensures HeadersFile.Denied(name) <==> Kept(name)
  {
  }

  lemma HeaderSplits(name: string, a: string, value: string)
    requires HeadersFile.HeaderName(Lower(name)) && Spaces(a) && |value| > 0 && Trimmed(value)
    ensures
      var line := name + [':'] + (a + value);
      ':' in line && IndexOf(line, ':') == |name| > 0 && Trim(line[..|name|]) == name && Trim(line[|name| + 1..]) == value
  {
    LowerIsPlain(name);
    hide IsSpace, Trim, Lower;
    var line := name + [':'] + (a + value);
    IndexAfter(name, a + value, ':');
    assert line[|name|] == ':';
    assert line[..|name|] == name && line[|name| + 1..] == a + value;
    TrimKeeps(name);
    TrimExactly(a, value, "");
    assert a + value + "" == a + value;
  }

  /**
   * A header's name counts in lower case, whatever case it is written in, and its value without the white space
   * around it. It is refused exactly when the server keeps the name to itself.
   */
  lemma AnyCaseReads(name: string, a: string, value: string)
    requires HeadersFile.HeaderName(Lower(name)) && Spaces(a) && |value| > 0 && Trimmed(value)
    requires (forall i | 0 <= i < |value| :: !HeadersFile.ControlChar(value[i])) && ByteLength(value) <= 2048
    ensures
      HeadersFile.HeaderLine(name + [':'] + (a + value))
      == if Kept(Lower(name)) then HeadersFile.Wrong(HeadersFile.DeniedName)
         else HeadersFile.Usable(HeadersFile.Header(Lower(name), value))
  {
    HeaderSplits(name, a, value);
    KeptExactly(Lower(name));
    hide IndexOf, Trim, Lower, ByteLength, HeadersFile.HeaderName, HeadersFile.Denied, Kept, HeadersFile.ControlChar;
  }

  /** A value of more than two kilobytes makes the whole file be ignored. */
  lemma LongValueStops(name: string, a: string, value: string)
    requires HeadersFile.HeaderName(Lower(name)) && !Kept(Lower(name)) && Spaces(a) && |value| > 0 && Trimmed(value)
    requires (forall i | 0 <= i < |value| :: !HeadersFile.ControlChar(value[i])) && ByteLength(value) > 2048
    ensures HeadersFile.HeaderLine(name + [':'] + (a + value)) == HeadersFile.Huge
  {
    HeaderSplits(name, a, value);
    KeptExactly(Lower(name));
    hide IndexOf, Trim, Lower, ByteLength, HeadersFile.HeaderName, HeadersFile.Denied, Kept, HeadersFile.ControlChar;
  }

  // --- What a target becomes ---

  predicate Identifier(name: string) {
    |name| > 0 && IdentifierStart(name[0]) && forall i | 0 < i < |name| :: IdentifierPart(name[i])
  }

  lemma {:induction false} RunTakes(name: string, rest: string)
    requires (forall i | 0 <= i < |name| :: IdentifierPart(name[i])) && (|rest| > 0 ==> !IdentifierPart(rest[0]))
    ensures Run(name + rest) == |name|
  {
    if |name| > 0 {
      assert (name + rest)[1..] == name[1..] + rest;
      RunTakes(name[1..], rest);
    } else {
      assert name + rest == rest;
    }
  }

  /** Text without a colon stays as it is. */
  lemma {:induction false} PlainTextStays(text: string, rest: string, m: Match)
    requires ':' !in text
    ensures Substitute(text + rest, m) == text + Substitute(rest, m)
  {
    hide Stands, Run;
    if |text| > 0 {
      assert (text + rest)[1..] == text[1..] + rest;
      assert text[0] in text;
      PlainTextStays(text[1..], rest, m);
    } else {
      assert text + rest == rest;
    }
  }

  /**
   * A reference is a colon and the longest identifier after it. It becomes what the `*` took if it is `splat`, what the
   * path had for it if the pattern binds it, and otherwise stays, unless every object has a property of that name.
   */
  lemma ReferenceBecomes(name: string, rest: string, m: Match)
    requires Identifier(name) && (|rest| > 0 ==> !IdentifierPart(rest[0]))
    ensures
      Substitute([':'] + name + rest, m)
      == (if name == "splat" then m.splat
          else if name in m.params then m.params[name]
          else if OfEveryObject(name) then InheritedText(name)
          else [':'] + name) + Substitute(rest, m)
  {
    var target := [':'] + name + rest;
    RunTakes(name[1..], rest);
    assert target[2..] == name[1..] + rest;
    assert target[1..|name| + 1] == name && target[|name| + 1..] == rest;
    assert ReferenceLength(target) == |name|;
    StandsFor(name, m);
    hide Run, ReferenceLength, Stands, IdentifierPart, IdentifierStart, OfEveryObject, InheritedText;
  }

  /** The properties of an object that has none of its own. */
  predicate OfEveryObject(name: string) {
    name in { "constructor", "__defineGetter__", "__defineSetter__", "hasOwnProperty", "__lookupGetter__",
              "__lookupSetter__", "isPrototypeOf", "propertyIsEnumerable", "toString", "valueOf", "__proto__", "toLocaleString" }
  }

  lemma StandsFor(name: string, m: Match)
    ensures
      Stands(m, name)
      == if name == "splat" then m.splat
         else if name in m.params then m.params[name]
         else if OfEveryObject(name) then InheritedText(name)
         else [':'] + name
  {
    hide InheritedText;
    EveryObjectHas(name);
    hide OfEveryObject, INHERITED;
    assert ":" == [':'];
  }

  lemma EveryObjectHas(name: string)
    ensures OfEveryObject(name) <==> name in INHERITED
  {
  }

  /** A colon that no identifier follows stays. */
  lemma LoneColonStays(rest: string, m: Match)
    requires |rest| > 0 ==> !IdentifierStart(rest[0])
    ensures Substitute([':'] + rest, m) == [':'] + Substitute(rest, m)
  {
    assert ([':'] + rest)[1..] == rest;
  }

  // --- Sizes ---

  /** How many characters of a text are at `first` or beyond. */
  function From(s: string, first: char): nat {
    if |s| == 0 then 0 else (if s[0] >= first then 1 else 0) + From(s[1..], first)
  }

  /** A text's encoded size: one byte a character, one more from U+0080 on, from U+0800 on and from U+10000 on. */
  lemma {:induction false} BytesExactly(s: string)
    ensures ByteLength(s) == |s| + From(s, '\U{80}') + From(s, '\U{800}') + From(s, '\U{10000}')
  {
    if |s| > 0 {
      BytesExactly(s[1..]);
    }
  }
}
