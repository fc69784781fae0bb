/** The page cursor (adapters/sql/helpers.ts): a time and an id, written out and in base 64. */
module Cursor {
  import opened Text
  import opened Characters
  import opened Wrappers

  // --- Decimal numbers ---

  function Digit(d: nat): char
    requires d < 10
  {
    '0' + d as char
  }

  function Decimal(n: nat): (s: string)
    ensures |s| > 0
  {
    if n < 10 then [Digit(n)] else Decimal(n / 10) + [Digit(n % 10)]
  }

  predicate IsDigit(c: char) { '0' <= c <= '9' }

  function DigitValue(c: char): nat
    requires IsDigit(c)
  {
    c as int - '0' as int
  }

  /** How many digits are at the front. */
  function DigitRun(s: string): (n: nat)
    ensures n <= |s| && forall i | 0 <= i < n :: IsDigit(s[i])
    ensures n < |s| ==> !IsDigit(s[n])
  {
    if |s| == 0 || !IsDigit(s[0]) then 0 else 1 + DigitRun(s[1..])
  }

  function ValueOf(digits: string): nat
    requires forall i | 0 <= i < |digits| :: IsDigit(digits[i])
  {
    if |digits| == 0 then 0 else 10 * ValueOf(digits[..|digits| - 1]) + DigitValue(digits[|digits| - 1])
  }

  /** `parseInt`: leading white space and a sign are allowed, and whatever follows the digits is ignored. */
  function ParseInt(text: string): Option<int> {
    var s := TrimStart(text);
    var negative := |s| > 0 && s[0] == '-';
    var unsigned := Unsigned(s);
    var n := DigitRun(unsigned);
    if n == 0 then None
    else
      var value: int := ValueOf(unsigned[..n]);
      Some(if negative then -value else value)
  }

  function Unsigned(s: string): string {
    if |s| > 0 && (s[0] == '-' || s[0] == '+') then s[1..] else s
  }

  lemma {:induction false} DecimalReads(n: nat)
    ensures forall i | 0 <= i < |Decimal(n)| :: IsDigit(Decimal(n)[i])
    ensures ValueOf(Decimal(n)) == n
  {
    if n >= 10 {
      DecimalReads(n / 10);
      var s := Decimal(n);
      assert s[..|s| - 1] == Decimal(n / 10);
    }
  }

  lemma {:induction false} AllDigits(s: string)
    requires forall i | 0 <= i < |s| :: IsDigit(s[i])
    ensures DigitRun(s) == |s|
  {
    if |s| > 0 { AllDigits(s[1..]); }
  }

  lemma DigitIsPlain(c: char)
    requires IsDigit(c)
    ensures !IsSpace(c) && c != '-' && c != '+' && c != ':'
  {
  }

  lemma ParseIntOfDecimal(n: nat)
    ensures ParseInt(Decimal(n)) == Some(n) && ':' !in Decimal(n)
  {
    hide IsSpace, Decimal, IsDigit;
    var s := Decimal(n);
    DecimalReads(n);
    AllDigits(s);
    forall i | 0 <= i < |s|
      ensures s[i] != ':'
    {
      DigitIsPlain(s[i]);
    }
    DigitIsPlain(s[0]);
    assert TrimStart(s) == s;
    assert s[..|s|] == s;
  }

  /** A number is read behind any white space, with or without a sign, up to the first character that is no digit. */
  lemma ParseIntExactly(gap: string, sign: string, digits: string, rest: string)
    requires (forall i | 0 <= i < |gap| :: IsSpace(gap[i])) && sign in {"", "+", "-"}
    requires |digits| > 0 && (forall i | 0 <= i < |digits| :: IsDigit(digits[i])) && (|rest| > 0 ==> !IsDigit(rest[0]))
    ensures ParseInt(gap + (sign + (digits + rest))) == Some(if sign == "-" then 0 - ValueOf(digits) else ValueOf(digits))
  {
    SignIsPlain();
    DigitIsPlain(digits[0]);
    SignGoes(sign, digits + rest);
    GapGoes(gap, sign + (digits + rest));
    SignedReads(gap + (sign + (digits + rest)), sign + (digits + rest), digits, rest);
  }

  lemma SignedReads(text: string, number: string, digits: string, rest: string)
    requires TrimStart(text) == number && |number| > 0 && Unsigned(number) == digits + rest
    requires |digits| > 0 && (forall i | 0 <= i < |digits| :: IsDigit(digits[i])) && (|rest| > 0 ==> !IsDigit(rest[0]))
    ensures ParseInt(text) == Some(if number[0] == '-' then 0 - ValueOf(digits) else ValueOf(digits))
  {
    RunIsDigits(digits, rest);
    assert (digits + rest)[..|digits|] == digits;
    hide IsDigit, ValueOf, TrimStart, Unsigned, DigitRun;
  }

  lemma SignGoes(sign: string, number: string)
    requires sign in {"", "+", "-"} && |number| > 0 && number[0] != '-' && number[0] != '+'
    ensures Unsigned(sign + number) == number
    ensures (sign + number)[0] == '-' <==> sign == "-"
    ensures (sign + number)[0] == if |sign| > 0 then sign[0] else number[0]
  {
    assert |sign| > 0 ==> (sign + number)[0] == sign[0] && (sign + number)[1..] == number;
    assert |sign| == 0 ==> sign + number == number;
  }

  lemma SignIsPlain()
    ensures !IsSpace('+') && !IsSpace('-')
  {
  }

  lemma {:induction false} GapGoes(gap: string, text: string)
    requires (forall i | 0 <= i < |gap| :: IsSpace(gap[i])) && |text| > 0 && !IsSpace(text[0])
    ensures TrimStart(gap + text) == text
  {
    hide IsSpace;
    if |gap| > 0 {
      assert (gap + text)[1..] == gap[1..] + text;
      GapGoes(gap[1..], text);
    } else {
      assert gap + text == text;
    }
  }

  lemma {:induction false} RunIsDigits(digits: string, rest: string)
    requires (forall i | 0 <= i < |digits| :: IsDigit(digits[i])) && (|rest| > 0 ==> !IsDigit(rest[0]))
    ensures DigitRun(digits + rest) == |digits|
  {
    if |digits| > 0 {
      assert (digits + rest)[1..] == digits[1..] + rest;
      RunIsDigits(digits[1..], rest);
    } else {
      assert digits + rest == rest;
    }
  }

  // --- Base 64 ---

  function Letter(sextet: nat): char
    requires sextet < 64
  {
    if sextet < 26 then 'A' + sextet as char
    else if sextet < 52 then 'a' + (sextet - 26) as char
    else if sextet < 62 then '0' + (sextet - 52) as char
    else if sextet == 62 then '+' else '/'
  }

  function Sextet(c: char): Option<nat> {
    if 'A' <= c <= 'Z' then Some(c as int - 'A' as int)
    else if 'a' <= c <= 'z' then Some(c as int - 'a' as int + 26)
    else if '0' <= c <= '9' then Some(c as int - '0' as int + 52)
    else if c == '+' then Some(62) else if c == '/' then Some(63) else None
  }

  lemma LetterReads(sextet: nat)
    requires sextet < 64
    ensures Sextet(Letter(sextet)) == Some(sextet) && Letter(sextet) != '=' && !IsSpace(Letter(sextet))
  {
  }

  predicate Latin1(s: string) {
    forall i | 0 <= i < |s| :: s[i] < '\U{100}'
  }

  /** Four sextets for three characters. */
  function Quad(x: char, y: char, z: char): (q: seq<nat>)
    requires x < '\U{100}' && y < '\U{100}' && z < '\U{100}'
    ensures |q| == 4 && forall i | 0 <= i < |q| :: q[i] < 64
  {
    var a, b, c := x as int, y as int, z as int;
    [a / 4, a % 4 * 16 + b / 16, b % 16 * 4 + c / 64, c % 64]
  }

  /** The sextets of a text, without padding; what is missing of the last three characters counts as zero. */
  function Sextets(s: string): (r: seq<nat>)
    requires Latin1(s)
    ensures forall i | 0 <= i < |r| :: r[i] < 64
  {
    if |s| == 0 then []
    else if |s| == 1 then Quad(s[0], '\0', '\0')[..2]
    else if |s| == 2 then Quad(s[0], s[1], '\0')[..3]
    else Quad(s[0], s[1], s[2]) + Sextets(s[3..])
  }

  function Letters(sextets: seq<nat>): string
    requires forall i | 0 <= i < |sextets| :: sextets[i] < 64
  {
    seq(|sextets|, i requires 0 <= i < |sextets| => Letter(sextets[i]))
  }

  function Padding(letters: string): string {
    if |letters| % 4 == 2 then "==" else if |letters| % 4 == 3 then "=" else ""
  }

  /** `btoa`: four letters for every three characters, padded with `=`; nothing for characters beyond Latin-1. */
  function Btoa(s: string): Option<string> {
    if !Latin1(s) then None
    else
      var letters := Letters(Sextets(s));
      Some(letters + Padding(letters))
  }

  /** Three characters of four sextets. */
  function Chars(q: seq<nat>): (r: string)
    requires |q| == 4 && forall i | 0 <= i < |q| :: q[i] < 64
    ensures |r| == 3
  {
    [(q[0] * 4 + q[1] / 16) as char, (q[1] % 16 * 16 + q[2] / 4) as char, (q[2] % 4 * 64 + q[3]) as char]
  }

  /** The characters of sextets; bits that fill no character are dropped. */
  function Decoded(r: seq<nat>): string
    requires forall i | 0 <= i < |r| :: r[i] < 64
  {
    if |r| < 2 then ""
    else if |r| == 2 then Chars(r + [0, 0])[..1]
    else if |r| == 3 then Chars(r + [0])[..2]
    else Chars(r[..4]) + Decoded(r[4..])
  }

  function WithoutSpace(s: string): string {
    if |s| == 0 then "" else (if s[0] in "\t\n\U{C}\r " then "" else [s[0]]) + WithoutSpace(s[1..])
  }

  /** Padding goes when the length is a multiple of four. */
  function WithoutPadding(s: string): string {
    if |s| % 4 == 0 && EndsWith(s, "==") then s[..|s| - 2]
    else if |s| % 4 == 0 && EndsWith(s, "=") then s[..|s| - 1]
    else s
  }

  /** `atob`: white space is ignored and padding optional; anything else outside the alphabet is an error. */
  function Atob(text: string): Option<string> {
    var s := WithoutPadding(WithoutSpace(text));
    if |s| % 4 == 1 || exists i | 0 <= i < |s| :: Sextet(s[i]).None? then None
    else Some(Decoded(seq(|s|, i requires 0 <= i < |s| && Sextet(s[i]).Some? => SextetValue(s[i]))))
  }

  function SextetValue(c: char): (n: nat)
    requires Sextet(c).Some?
    ensures n < 64
  {
    Sextet(c).value
  }

  lemma Bytes(a: nat, b: nat, c: nat)
    requires a < 256 && b < 256 && c < 256
    ensures a / 4 * 4 + (a % 4 * 16 + b / 16) / 16 == a
    ensures (a % 4 * 16 + b / 16) % 16 * 16 + (b % 16 * 4 + c / 64) / 4 == b
    ensures (b % 16 * 4 + c / 64) % 4 * 64 + c % 64 == c
  {
  }

  lemma QuadReads(x: char, y: char, z: char)
    requires x < '\U{100}' && y < '\U{100}' && z < '\U{100}'
    ensures Chars(Quad(x, y, z)) == [x, y, z]
  {
    Bytes(x as int, y as int, z as int);
  }

  /** Sextets that are left out of the last four are zero. */
  lemma ShortQuads(x: char, y: char)
    requires x < '\U{100}' && y < '\U{100}'
    ensures Quad(x, '\0', '\0') == Quad(x, '\0', '\0')[..2] + [0, 0]
    ensures Quad(x, y, '\0') == Quad(x, y, '\0')[..3] + [0]
  {
  }

  lemma {:induction false} DecodedSextets(s: string)
    requires Latin1(s)
    ensures Decoded(Sextets(s)) == s
    ensures |Sextets(s)| % 4 != 1
  {
    hide Quad, Chars;
    if |s| == 1 {
      QuadReads(s[0], '\0', '\0');
      ShortQuads(s[0], '\0');
    } else if |s| == 2 {
      QuadReads(s[0], s[1], '\0');
      ShortQuads(s[0], s[1]);
    } else if |s| > 2 {
      var first, rest := Quad(s[0], s[1], s[2]), Sextets(s[3..]);
      DecodedSextets(s[3..]);
      QuadReads(s[0], s[1], s[2]);
      assert (first + rest)[..4] == first && (first + rest)[4..] == rest;
      assert s == [s[0], s[1], s[2]] + s[3..];
    }
  }

  lemma {:induction false} NoSpaceStays(s: string)
    requires NoSpace(s)
    ensures WithoutSpace(s) == s
  {
    if |s| > 0 { NoSpaceStays(s[1..]); }
  }

  lemma LettersArePlain(r: seq<nat>)
    requires forall i | 0 <= i < |r| :: r[i] < 64
    ensures NoSpace(Letters(r))
    ensures forall i | 0 <= i < |r| :: Sextet(Letters(r)[i]) == Some(r[i]) && Letters(r)[i] != '='
  {
    hide Letter, Sextet, IsSpace;
    forall i | 0 <= i < |r|
      ensures Sextet(Letter(r[i])) == Some(r[i]) && Letter(r[i]) != '=' && !IsSpace(Letter(r[i]))
    {
      LetterReads(r[i]);
    }
  }

  /** Letters of base 64, none of which is the padding. */
  predicate Unpadded(letters: string) {
    forall i | 0 <= i < |letters| :: letters[i] != '='
  }

  lemma EndOf(s: string, tail: string)
    ensures EndsWith(s + tail, tail) && (s + tail)[..|s|] == s
  {
    assert (s + tail)[|s|..] == tail;
  }

  lemma NotPadded(letters: string)
    requires Unpadded(letters)
    ensures !EndsWith(letters, "==") && !EndsWith(letters, "=")
  {
    if |letters| > 1 { assert letters[|letters| - 2..][0] == letters[|letters| - 2]; }
    if |letters| > 0 { assert letters[|letters| - 1..][0] == letters[|letters| - 1]; }
  }

  lemma NoPaddingComesOff(letters: string)
    requires |letters| % 4 == 0 && Unpadded(letters)
    ensures WithoutPadding(letters) == letters
  {
    hide EndsWith;
    NotPadded(letters);
  }

  lemma OnePaddingComesOff(letters: string)
    requires |letters| % 4 == 3 && Unpadded(letters)
    ensures WithoutPadding(letters + "=") == letters
  {
    var s := letters + "=";
    assert s[|s| - 2..][0] == letters[|letters| - 1] != "=="[0];
    hide EndsWith;
    EndOf(letters, "=");
  }

  lemma TwoPaddingsComeOff(letters: string)
    requires |letters| % 4 == 2
    ensures WithoutPadding(letters + "==") == letters
  {
    hide EndsWith;
    EndOf(letters, "==");
  }

  lemma PaddingComesOff(letters: string)
    requires |letters| % 4 != 1 && Unpadded(letters)
    ensures WithoutPadding(letters + Padding(letters)) == letters && NoSpace(Padding(letters))
  {
    hide EndsWith, IsSpace, WithoutPadding, Unpadded;
    EqualsIsNoSpace();
    if |letters| % 4 == 2 {
      TwoPaddingsComeOff(letters);
    } else if |letters| % 4 == 3 {
      OnePaddingComesOff(letters);
    } else {
      assert letters + "" == letters;
      NoPaddingComesOff(letters);
    }
  }

  lemma EqualsIsNoSpace()
    ensures !IsSpace('=')
  {
  }

  /** Base 64 loses nothing. */
  lemma AtobOfBtoa(s: string)
    requires Latin1(s)
    ensures Btoa(s).Some? && Atob(Btoa(s).value) == Some(s)
  {
    hide Decoded, Sextets, Letters, Sextet, IsSpace, WithoutPadding, WithoutSpace, Latin1;
    var r := Sextets(s);
    DecodedSextets(s);
    LettersArePlain(r);
    var letters := Letters(r);
    assert |letters| == |r| by { LettersLength(r); }
    PaddingComesOff(letters);
    NoSpaceStays(Btoa(s).value);
    assert seq(|letters|, i requires 0 <= i < |letters| && Sextet(letters[i]).Some? => SextetValue(letters[i])) == r;
  }

  lemma LettersLength(r: seq<nat>)
    requires forall i | 0 <= i < |r| :: r[i] < 64
    ensures |Letters(r)| == |r|
  {
  }

  /** The alphabet of RFC 4648, section 4, and its padding. */
  lemma LettersExactly(sextet: nat)
    requires sextet < 64
    ensures Letter(sextet) == ("ABCDEFGHIJKLMNOPQRSTUVWXYZ" + "abcdefghijklmnopqrstuvwxyz" + "0123456789" + "+/")[sextet]
  {
    var upper, lower, digits := "ABCDEFGHIJKLMNOPQRSTUVWXYZ", "abcdefghijklmnopqrstuvwxyz", "0123456789";
    if sextet < 26 {
      assert upper[sextet] == 'A' + sextet as char;
    } else if sextet < 52 {
      assert lower[sextet - 26] == 'a' + (sextet - 26) as char;
    } else if sextet < 62 {
      assert digits[sextet - 52] == '0' + (sextet - 52) as char;
    }
  }

  /** Three characters are one number of 24 bits, and its four letters are that number's digits to the base 64. */
  lemma GroupsExactly(x: char, y: char, z: char)
    requires x < '\U{100}' && y < '\U{100}' && z < '\U{100}'
    ensures
      var q := Quad(x, y, z);
      ((q[0] * 64 + q[1]) * 64 + q[2]) * 64 + q[3] == (x as int * 256 + y as int) * 256 + z as int
  {
  }

  /** One character left over makes two letters and two signs of padding, two make three letters and one. */
  lemma LengthsExactly(s: string)
    requires Latin1(s)
    ensures
      var out := Btoa(s).value;
      && |out| == (|s| + 2) / 3 * 4
      && (|s| % 3 == 1 ==> out[|out| - 2..] == "==")
      && (|s| % 3 == 2 ==> out[|out| - 1] == '=' && out[|out| - 2] != '=')
  {
    SextetsLength(s);
    LettersLength(Sextets(s));
    LettersArePlain(Sextets(s));
    hide Sextets, Letters, IsSpace, Sextet;
    PaddingExactly(Letters(Sextets(s)), |s|);
  }

  lemma PaddingExactly(letters: string, n: nat)
    requires |letters| == n / 3 * 4 + (if n % 3 == 0 then 0 else n % 3 + 1) && Unpadded(letters)
    ensures
      var out := letters + Padding(letters);
      && |out| == (n + 2) / 3 * 4
      && (n % 3 == 1 ==> out[|out| - 2..] == "==")
      && (n % 3 == 2 ==> out[|out| - 1] == '=' && out[|out| - 2] != '=')
  {
    var groups := n / 3;
    assert n == 3 * groups + n % 3;
    assert |letters| % 4 == if n % 3 == 0 then 0 else n % 3 + 1;
  }

  lemma {:induction false} SextetsLength(s: string)
    requires Latin1(s)
    ensures |Sextets(s)| == |s| / 3 * 4 + (if |s| % 3 == 0 then 0 else |s| % 3 + 1)
  {
    hide Quad;
    if |s| > 2 { SextetsLength(s[3..]); }
  }

  // --- The cursor ---

  datatype Key = Key(createdAt: int, id: string)

  /** Nothing for an id that base 64 cannot take. */
  function EncodeCursor(createdAt: nat, id: string): Option<string> {
    Btoa(Decimal(createdAt) + [':'] + id)
  }

  function DecodeCursor(cursor: string): Option<Key> {
    match Atob(cursor)
    case None => None
    case Some(decoded) =>
      if ':' !in decoded then None
      else
        var colon := IndexOf(decoded, ':');
        match ParseInt(decoded[..colon])
        case None => None
        case Some(createdAt) => Some(Key(createdAt, decoded[colon + 1..]))
  }

  /** A cursor reads back as the time and id it was made from, colons in the id included. */
  lemma CursorRoundTrip(createdAt: nat, id: string)
    requires Latin1(id)
    ensures EncodeCursor(createdAt, id).Some?
    ensures DecodeCursor(EncodeCursor(createdAt, id).value) == Some(Key(createdAt, id))
  {
    hide Btoa, Atob, Decimal, ParseInt;
    var time := Decimal(createdAt);
    var text := time + [':'] + id;
    ParseIntOfDecimal(createdAt);
    DecimalIsLatin1(createdAt);
    AtobOfBtoa(text);
    IndexAfter(time, id, ':');
    assert text[|time|] == ':';
    assert text[..|time|] == time && text[|time| + 1..] == id;
  }

  lemma DecimalIsLatin1(n: nat)
    ensures Latin1(Decimal(n))
  {
    hide Decimal;
    DecimalReads(n);
  }
}
