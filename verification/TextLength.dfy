/** How many bytes texts and their lines take: trimming, lower case and reading lines never take more. */
module TextLength {
  import opened Text
  import opened Characters
  import opened ControlFile

  // --- Bytes ---

  lemma {:induction false} BytesAdd(a: string, b: string)
    ensures ByteLength(a + b) == ByteLength(a) + ByteLength(b)
  {
    if |a| == 0 {
      assert a + b == b;
    } else {
      BytesAdd(a[1..], b);
      assert (a + b)[1..] == a[1..] + b;
    }
  }

  lemma BytesOfPart(s: string, from: nat, to: nat)
    requires from <= to <= |s|
    ensures ByteLength(s[from..to]) <= ByteLength(s)
  {
    hide ByteLength;
    BytesAdd(s[..from], s[from..to]);
    BytesAdd(s[..to], s[to..]);
    assert s[..from] + s[from..to] == s[..to] && s[..to] + s[to..] == s;
  }

  /** What trimming the start leaves is the end of the text, from some place on. */
  lemma {:induction false} TrimStartIsEnd(s: string) returns (n: nat)
    ensures n <= |s| && TrimStart(s) == s[n..]
    ensures |s| > 0 && IsSpace(s[0]) ==> n > 0
  {
    hide IsSpace;
    n := 0;
    if |s| > 0 && IsSpace(s[0]) {
      var m := TrimStartIsEnd(s[1..]);
      n := m + 1;
      assert s[1..][m..] == s[n..];
    }
  }

  /** Trimming takes bytes away, at least one when the text is indented. */
  lemma TrimIsShorter(s: string)
    ensures ByteLength(Trim(s)) <= ByteLength(s)
    ensures |s| > 0 && IsSpace(s[0]) ==> ByteLength(Trim(s)) + 1 <= ByteLength(s)
  {
    hide IsSpace, ByteLength, TrimStart, TrimEnd;
    var start, end := TrimStart(s), Trim(s);
    var n := TrimStartIsEnd(s);
    TrimEndTrims(start);
    BytesOfPart(start, 0, |end|);
    assert start[0..|end|] == end;
    BytesAdd(s[..n], start);
    assert s[..n] + start == s;
    if n > 0 { SomeBytes(s[..n]); }
  }

  lemma SomeBytes(s: string)
    requires |s| > 0
    ensures ByteLength(s) >= 1
  {
  }

  lemma {:induction false} LowerIsNoLonger(s: string)
    ensures ByteLength(Lower(s)) <= ByteLength(s)
  {
    if |s| > 0 {
      LowerIsNoLonger(s[1..]);
      assert Lower(s)[1..] == Lower(s[1..]);
    }
  }

  // --- Lines ---

  /** The bytes of lines, each with its line end. */
  function Weight(lines: seq<string>): nat {
    if |lines| == 0 then 0 else Weight(lines[..|lines| - 1]) + ByteLength(lines[|lines| - 1]) + 1
  }

  lemma NothingWeighs()
    ensures Weight([]) == 0
  {
  }

  lemma {:induction false} WeightAdds(a: seq<string>, b: seq<string>)
    ensures Weight(a + b) == Weight(a) + Weight(b)
  {
    hide ByteLength;
    if |b| == 0 {
      assert a + b == a;
    } else {
      WeightAdds(a, b[..|b| - 1]);
      assert (a + b)[..|a + b| - 1] == a + b[..|b| - 1];
    }
  }

  lemma WeightOfOne(line: string)
    ensures Weight([line]) == ByteLength(line) + 1
  {
    hide ByteLength;
    assert [line][..0] == [];
  }

  lemma {:induction false} WeightOfJoin(lines: seq<string>)
    requires |lines| > 0
    ensures ByteLength(Join(lines, '\n')) + 1 == Weight(lines)
  {
    hide ByteLength, Weight;
    WeightOfOne(lines[0]);
    if |lines| > 1 {
      var rest := Join(lines[1..], '\n');
      WeightOfJoin(lines[1..]);
      WeightAdds([lines[0]], lines[1..]);
      assert lines == [lines[0]] + lines[1..];
      BytesAdd(lines[0] + ['\n'], rest);
      BytesAdd(lines[0], ['\n']);
      LineEndIsOne();
    } else {
      assert lines == [lines[0]];
    }
  }

  lemma LineEndIsOne()
    ensures ByteLength(['\n']) == ByteLength([' ']) == ByteLength([':']) == 1
  {
    assert ByteLength("") == 0;
  }

  lemma {:induction false} LighterLines(some: seq<string>, more: seq<string>)
    requires |some| == |more| && forall i | 0 <= i < |some| :: ByteLength(some[i]) <= ByteLength(more[i])
    ensures Weight(some) <= Weight(more)
  {
    hide ByteLength;
    if |some| > 0 { LighterLines(some[..|some| - 1], more[..|more| - 1]); }
  }

  /** Reading lines loses carriage returns and a byte order mark. */
  lemma LinesWeigh(text: string)
    ensures Weight(Lines(text)) <= ByteLength(text) + 1
  {
    hide ByteLength, Weight, Split, Join, EndsWith;
    var unmarked := Unmarked(text);
    var parts := Split(unmarked, '\n');
    JoinOfSplit(unmarked, '\n');
    WeightOfJoin(parts);
    assert unmarked == text[|text| - |unmarked|..|text|];
    BytesOfPart(text, |text| - |unmarked|, |text|);
    forall i | 0 <= i < |parts|
      ensures ByteLength(DropCarriageReturn(parts[i])) <= ByteLength(parts[i])
    {
      BytesOfPart(parts[i], 0, |DropCarriageReturn(parts[i])|) by { DropIsPrefix(parts[i]); }
      DropIsPrefix(parts[i]);
    }
    LighterLines(Lines(text), parts);
  }

  lemma DropIsPrefix(line: string)
    ensures DropCarriageReturn(line) <= line && DropCarriageReturn(line) == line[0..|DropCarriageReturn(line)|]
  {
  }
}
