/** Reading a control file line by line, the way core/site/rules.ts does: lines, words, comments. */
module ControlFile {
  import opened Characters
  import opened Text

  const MAX_CONTROL_FILE_BYTES := 64 * 1024

  function DropCarriageReturn(line: string): string {
    if EndsWith(line, "\r") then line[..|line| - 1] else line
  }

  /** Where the text of the lines starts: after a byte order mark. */
  function Unmarked(text: string): string {
    if |text| > 0 && text[0] == '\U{FEFF}' then text[1..] else text
  }

  /** The lines of a text: a byte order mark is skipped, and `\r\n` ends a line as `\n` does. */
  function Lines(text: string): seq<string> {
    var parts := Split(Unmarked(text), '\n');
    seq(|parts|, i requires 0 <= i < |parts| => if i < |parts| - 1 then DropCarriageReturn(parts[i]) else parts[i])
  }

  function WordLength(s: string): (n: nat)
    ensures n <= |s|
  {
    if |s| == 0 || IsSpace(s[0]) then 0 else 1 + WordLength(s[1..])
  }

  /** The runs of characters between white space. */
  function Words(s: string): seq<string>
    decreases |s|
  {
    if |s| == 0 then []
    else
      var n := WordLength(s);
      if n == 0 then Words(s[1..]) else [s[..n]] + Words(s[n..])
  }

  /** The part of a line before a comment. */
  function BeforeComment(line: string): (r: string)
    ensures '#' !in r
  {
    if '#' in line then line[..IndexOf(line, '#')] else line
  }

  lemma {:induction false} WordIsWord(s: string)
    ensures NoSpace(s[..WordLength(s)])
  {
    hide IsSpace;
    if |s| > 0 && !IsSpace(s[0]) {
      WordIsWord(s[1..]);
      var n := WordLength(s);
      assert forall i | 0 < i < n :: s[..n][i] == s[1..][..n - 1][i - 1];
    }
  }

  /** A word has no white space, and only characters of the text. */
  predicate WordOf(word: string, s: string) {
    |word| > 0 && NoSpace(word) && forall i | 0 <= i < |word| :: word[i] in s
  }

  lemma {:induction false} WordsAreWords(s: string)
    ensures forall i | 0 <= i < |Words(s)| :: WordOf(Words(s)[i], s)
    decreases |s|
  {
    hide NoSpace, WordLength;
    if |s| > 0 {
      var n := WordLength(s);
      WordIsWord(s);
      var rest := if n == 0 then s[1..] else s[n..];
      WordsAreWords(rest);
      assert forall i | 0 <= i < |Words(rest)| :: WordOf(Words(rest)[i], s);
    }
  }

  lemma {:induction false} WordEnds(word: string, rest: string)
    requires NoSpace(word) && (|rest| > 0 ==> IsSpace(rest[0]))
    ensures WordLength(word + rest) == |word|
  {
    hide IsSpace;
    if |word| > 0 {
      assert (word + rest)[1..] == word[1..] + rest;
      WordEnds(word[1..], rest);
    } else {
      assert word + rest == rest;
    }
  }

  lemma WordsCons(word: string, rest: string)
    requires |word| > 0 && NoSpace(word)
    ensures Words(word + [' '] + rest) == [word] + Words(rest)
  {
    var more := [' '] + rest;
    assert word + [' '] + rest == word + more;
    WordEnds(word, more);
    assert (word + more)[..|word|] == word && (word + more)[|word|..] == more;
    assert more[1..] == rest;
    assert WordLength(more) == 0;
  }

  lemma WordsOfWord(word: string)
    requires |word| > 0 && NoSpace(word)
    ensures Words(word) == [word]
  {
    WordEnds(word, "");
    assert word + "" == word && word[..|word|] == word && word[|word|..] == "";
  }

  /** Text that is printed line by line reads back as those lines. */
  lemma LinesOfJoin(lines: seq<string>)
    requires |lines| > 0
    requires forall i | 0 <= i < |lines| :: '\n' !in lines[i] && !EndsWith(lines[i], "\r")
    requires Unmarked(lines[0]) == lines[0]
    ensures Lines(Join(lines, '\n')) == lines
  {
    hide EndsWith, Split, Join, Unmarked;
    UnmarkedJoin(lines);
    forall line | line in lines
      ensures '\n' !in line
    {
      var i :| 0 <= i < |lines| && lines[i] == line;
    }
    SplitOfJoin(lines, '\n');
  }

  lemma UnmarkedJoin(lines: seq<string>)
    requires |lines| > 0 && Unmarked(lines[0]) == lines[0]
    ensures Unmarked(Join(lines, '\n')) == Join(lines, '\n')
  {
    hide Join;
    if |Join(lines, '\n')| > 0 {
      JoinStarts(lines);
    }
  }

  lemma JoinStarts(lines: seq<string>)
    requires |lines| > 0 && |Join(lines, '\n')| > 0
    ensures Join(lines, '\n')[0] == if |lines[0]| > 0 then lines[0][0] else '\n'
  {
  }

  lemma LinesHaveNoLineEnd(text: string)
    ensures forall i | 0 <= i < |Lines(text)| :: '\n' !in Lines(text)[i]
  {
    hide Split;
    var parts := Split(Unmarked(text), '\n');
    forall i | 0 <= i < |parts|
      ensures '\n' !in DropCarriageReturn(parts[i]) && '\n' !in parts[i]
    {
      assert parts[i] in parts;
    }
  }
}
