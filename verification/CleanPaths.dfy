/**
 * What cleaning does to an entry's path (container/archive-extractor/path.go): which segments
 * stay, what `..` takes back, and that a cleaned path is left as it is.
 */
module CleanPaths {
  import opened Text
  import opened ArchivePath

  /** A backslash becomes a slash, and every other character stays where it is. */
  lemma {:induction false} SlashesExactly(raw: string, i: nat)
    requires i < |raw|
    ensures ForwardSlashes(raw)[i] == if raw[i] == '\\' then '/' else raw[i]
  {
    if i > 0 {
      SlashesExactly(raw[1..], i - 1);
    }
  }

  predicate Segments(segments: seq<string>) {
    forall p | p in segments :: '/' !in p
  }

  /** A name, which is none of the three that cleaning looks at. */
  predicate Ordinary(segment: string) {
    segment != "" && segment != "." && segment != ".." && '/' !in segment
  }

  /** Cleaned segments: names, after some `..` if the path is relative. */
  predicate Cleaned(segments: seq<string>, rooted: bool) {
    exists n: nat | n <= |segments| :: CleanedAt(segments, rooted, n)
  }

  predicate CleanedAt(segments: seq<string>, rooted: bool, n: nat)
    requires n <= |segments|
  {
    && (rooted ==> n == 0)
    && (forall i | 0 <= i < n :: segments[i] == "..")
    && (forall i | n <= i < |segments| :: Ordinary(segments[i]))
  }

  predicate Kept(segments: seq<string>) {
    forall k | k in segments :: k != "" && '/' !in k
  }

  lemma CleanedIsKept(segments: seq<string>, rooted: bool)
    requires Cleaned(segments, rooted)
    ensures Kept(segments)
  {
    forall k | k in segments ensures k != "" && '/' !in k {
      var i :| 0 <= i < |segments| && segments[i] == k;
    }
  }

  // --- The laws ---

  /** An empty segment and a `.` go; `x/..` goes with the name before it; at the root, so does `..`. */
  predicate Goes(segments: seq<string>, rooted: bool, atStart: bool) {
    || segments == [""] || segments == ["."]
    || (|segments| == 2 && Ordinary(segments[0]) && segments[1] == "..")
    || (rooted && atStart && segments == [".."])
  }

  lemma {:induction false} CleanFrom(before: seq<string>, after: seq<string>, rooted: bool, kept: seq<string>)
    requires Segments(before) && Segments(after) && Kept(kept)
    ensures
      var mid := CleanSegments(before, rooted, kept);
      Segments(before + after) && CleanSegments(before + after, rooted, kept) == CleanSegments(after, rooted, mid)
    decreases |before|
  {
    assert Segments(before + after);
    if |before| == 0 {
      assert before + after == after;
    } else {
      assert (before + after)[1..] == before[1..] + after;
      assert Segments(before[1..]);
      CleanFrom(before[1..], after, rooted, CleanSegments(before[..1], rooted, kept)) by {
        assert Segments(before[..1]);
        OneSegment(before[0], rooted, kept);
      }
      OneSegment(before[0], rooted, kept);
      assert before[..1] == [before[0]];
    }
  }

  /** What one segment does to those kept so far. */
  function Next(segment: string, rooted: bool, kept: seq<string>): seq<string> {
    if segment == "" || segment == "." then kept
    else if segment != ".." then kept + [segment]
    else if |kept| > 0 && kept[|kept| - 1] != ".." then kept[..|kept| - 1]
    else if rooted then kept
    else kept + [segment]
  }

  lemma OneSegment(segment: string, rooted: bool, kept: seq<string>)
    requires '/' !in segment && Kept(kept)
    ensures Segments([segment]) && CleanSegments([segment], rooted, kept) == Next(segment, rooted, kept)
    ensures Kept(Next(segment, rooted, kept))
  {
    assert [segment][1..] == [];
    assert CleanSegments([], rooted, Next(segment, rooted, kept)) == Next(segment, rooted, kept);
  }

  /** Cleaning does not see what goes, wherever it stands. */
  lemma GoesAway(before: seq<string>, gone: seq<string>, after: seq<string>, rooted: bool)
    requires Segments(before) && Segments(after) && Goes(gone, rooted, before == [])
    ensures Segments(before + gone + after) && Segments(before + after)
    ensures CleanSegments(before + gone + after, rooted, []) == CleanSegments(before + after, rooted, [])
  {
    assert Segments(gone);
    var kept := CleanSegments(before, rooted, []);
    assert Kept(kept) && Kept([]);
    GoneIsNothing(gone, rooted, before == [], kept);
    CleanFrom(before, gone + after, rooted, []);
    CleanFrom(gone, after, rooted, kept);
    CleanFrom(before, after, rooted, []);
    assert before + gone + after == before + (gone + after);
  }

  lemma GoneIsNothing(gone: seq<string>, rooted: bool, atStart: bool, kept: seq<string>)
    requires Goes(gone, rooted, atStart) && Kept(kept) && (atStart ==> kept == [])
    ensures Segments(gone) && CleanSegments(gone, rooted, kept) == kept
  {
    assert Segments(gone);
    OneSegment(gone[0], rooted, kept);
    if |gone| == 2 {
      var grown := Next(gone[0], rooted, kept);
      OneSegment(gone[1], rooted, grown);
      assert gone == [gone[0]] + [gone[1]];
      CleanFrom([gone[0]], [gone[1]], rooted, kept);
      assert grown == kept + [gone[0]] && grown[..|grown| - 1] == kept;
    } else {
      assert gone == [gone[0]];
    }
  }

  // --- What is left ---

  lemma NextIsCleaned(segment: string, rooted: bool, kept: seq<string>)
    requires '/' !in segment && Cleaned(kept, rooted)
    ensures Cleaned(Next(segment, rooted, kept), rooted)
  {
    var n: nat :| n <= |kept| && CleanedAt(kept, rooted, n);
    var next := Next(segment, rooted, kept);
    if |next| < |kept| {
      assert CleanedAt(next, rooted, n);
    } else if next == kept {
    } else if segment == ".." {
      assert n == |kept|;
      assert CleanedAt(next, rooted, n + 1);
    } else {
      assert CleanedAt(next, rooted, n);
    }
  }

  lemma {:induction false} CleaningFrom(segments: seq<string>, rooted: bool, kept: seq<string>)
    requires Segments(segments) && Kept(kept) && Cleaned(kept, rooted)
    ensures Cleaned(CleanSegments(segments, rooted, kept), rooted)
    decreases |segments|
  {
    if |segments| > 0 {
      OneSegment(segments[0], rooted, kept);
      NextIsCleaned(segments[0], rooted, kept);
      assert Segments(segments[1..]);
      CleaningFrom(segments[1..], rooted, Next(segments[0], rooted, kept));
    }
  }

  /** Only names are left, and at the front of a relative path the `..` that had nothing to take back. */
  lemma CleaningCleans(segments: seq<string>, rooted: bool)
    requires Segments(segments)
    ensures Cleaned(CleanSegments(segments, rooted, []), rooted)
  {
    assert CleanedAt([], rooted, 0);
    CleaningFrom(segments, rooted, []);
  }

  lemma {:induction false} CleanedAppends(kept: seq<string>, rest: seq<string>, rooted: bool)
    requires Cleaned(kept + rest, rooted)
    ensures Kept(kept) && Segments(rest) && CleanSegments(rest, rooted, kept) == kept + rest
    decreases |rest|
  {
    CleanedIsKept(kept + rest, rooted);
    assert forall k | k in kept :: k in kept + rest;
    assert forall k | k in rest :: k in kept + rest;
    if |rest| == 0 {
      assert kept + rest == kept;
    } else {
      var grown := kept + [rest[0]];
      assert grown + rest[1..] == kept + rest;
      CleanedAppends(grown, rest[1..], rooted);
      NextGrows(kept, rest, rooted);
    }
  }

  lemma NextGrows(kept: seq<string>, rest: seq<string>, rooted: bool)
    requires Cleaned(kept + rest, rooted) && |rest| > 0
    ensures Next(rest[0], rooted, kept) == kept + [rest[0]]
  {
    var all := kept + rest;
    var n: nat :| n <= |all| && CleanedAt(all, rooted, n);
    assert all[|kept|] == rest[0];
    assert |kept| > 0 ==> all[|kept| - 1] == kept[|kept| - 1];
  }

  /** What is clean stays as it is. */
  lemma CleanedStays(segments: seq<string>, rooted: bool)
    requires Cleaned(segments, rooted)
    ensures Segments(segments) && CleanSegments(segments, rooted, []) == segments
  {
    assert [] + segments == segments;
    CleanedAppends([], segments, rooted);
  }

  // --- Whole paths ---

  lemma {:induction false} JoinStartsWith(parts: seq<string>)
    requires |parts| > 0 && Kept(parts)
    ensures parts[0] != "" && |Join(parts, '/')| > 0 && Join(parts, '/')[0] == parts[0][0] && parts[0][0] != '/'
  {
    assert parts[0] in parts;
    assert parts[0][0] in parts[0];
  }

  /** The segments of a cleaned path that has any. */
  lemma CleanSplits(parts: seq<string>, rooted: bool)
    requires |parts| > 0 && Kept(parts)
    ensures
      var out := (if rooted then "/" else "") + Join(parts, '/');
      out != "" && (out[0] == '/') == rooted && Split(out, '/') == (if rooted then [""] else []) + parts
  {
    JoinStartsWith(parts);
    NoSlashes(parts);
    SplitOfJoin(parts, '/');
    hide Join, Split, Kept;
    var body := Join(parts, '/');
    if rooted {
      SplitCons("", body, '/');
      assert "" + ['/'] + body == "/" + body;
    } else {
      assert "" + body == body && [] + parts == parts;
    }
  }

  lemma NoSlashes(parts: seq<string>)
    requires Kept(parts)
    ensures forall p | p in parts :: '/' !in p
  {
  }

  /** Cleaning a clean path changes nothing. */
  lemma CleanTwice(p: string)
    ensures Clean(Clean(p)) == Clean(p)
  {
    if p == "" {
      CleanDot();
    } else {
      var rooted := p[0] == '/';
      var parts := CleanSegments(Split(p, '/'), rooted, []);
      CleaningCleans(Split(p, '/'), rooted);
      if |parts| == 0 {
        CleanDot();
        CleanRoot();
      } else {
        CleanedIsKept(parts, rooted);
        CleanSplits(parts, rooted);
        CleanedStays(parts, rooted);
        if rooted {
          GoesAway([], [""], parts, true);
          assert [] + [""] + parts == [""] + parts && [] + parts == parts;
        } else {
          assert [] + parts == parts;
        }
      }
    }
  }

  lemma CleanDot()
    ensures Clean(".") == "."
  {
    assert Split(".", '/') == ["."];
    OneSegment(".", false, []);
  }

  lemma CleanRoot()
    ensures Clean("/") == "/"
  {
    SplitCons("", "", '/');
    assert "" + ['/'] + "" == "/";
    assert Split("", '/') == [""];
    GoesAway([], [""], [""], true);
    OneSegment("", true, []);
    assert [] + [""] + [""] == [""] + [""] && [] + [""] == [""];
  }

  /** One slash or backslash in front is taken away, so a path is left rooted exactly when there were two. */
  lemma RootedExactly(raw: string)
    ensures
      NormalizeSeparators(raw)[0..1] == "/" <==> |raw| > 1 && raw[0] in "/\\" && raw[1] in "/\\"
  {
    var forward := ForwardSlashes(raw);
    if |raw| > 0 { SlashesExactly(raw, 0); }
    if |raw| > 1 { SlashesExactly(raw, 1); }
    var p := TrimPrefix(forward, "/");
    hide ForwardSlashes;
    CleanShape(p);
    if p != "" {
      CleaningCleans(Split(p, '/'), p[0] == '/');
      var parts := CleanSegments(Split(p, '/'), p[0] == '/', []);
      CleanedIsKept(parts, p[0] == '/');
      if |parts| > 0 { CleanSplits(parts, p[0] == '/'); }
    }
  }

  /** The root of a path is its first segment, which is the whole of a path that has no other. */
  lemma RootIsFirst(raw: string)
    ensures RootOf(raw) == Split(NormalizeSeparators(raw), '/')[0]
  {
    hide NormalizeSeparators;
  }

  // --- The archive's own name ---

  /** A file name's archive extension, in any letter case, is what is taken off it. */
  lemma BaseNameOfArchive(stem: string, extension: string)
    requires Lower(extension) in {".tar.gz", ".tar.bz2", ".tgz", ".zip", ".tar"}
    ensures BaseName(stem + extension, ARCHIVE_EXTENSIONS) == stem
  {
    LowerAppends(stem, extension);
    ExtensionsDiffer(Lower(stem), Lower(extension));
    var i := PlaceOf(Lower(extension));
    assert (stem + extension)[..|stem|] == stem;
    hide Lower, EndsWith, ARCHIVE_EXTENSIONS;
    BaseNameByFirst(stem + extension, ARCHIVE_EXTENSIONS, i);
  }

  lemma PlaceOf(extension: string) returns (i: nat)
    requires extension in {".tar.gz", ".tar.bz2", ".tgz", ".zip", ".tar"}
    ensures i < |ARCHIVE_EXTENSIONS| && ARCHIVE_EXTENSIONS[i] == extension
    ensures forall j | 0 <= j < i :: ARCHIVE_EXTENSIONS[j] in {".tar.gz", ".tar.bz2", ".tgz", ".zip", ".tar"} && ARCHIVE_EXTENSIONS[j] != extension
  {
    i := if extension == ".tar.gz" then 0 else if extension == ".tar.bz2" then 1 else if extension == ".tgz" then 2
         else if extension == ".zip" then 3 else 4;
  }

  /** A root names the archive if it is the file's whole name, or that without its archive extension. */
  lemma NamesExactly(root: string, filename: string)
    ensures
      NamesArchive(root, filename)
      <==> root == filename
           || exists e | e in Ends(filename) :: Lower(e) in {".tar.gz", ".tar.bz2", ".tgz", ".zip", ".tar"} && filename == root + e
  {
    forall e | e in Ends(filename) && Lower(e) in {".tar.gz", ".tar.bz2", ".tgz", ".zip", ".tar"} && filename == root + e
      ensures BaseName(filename, ARCHIVE_EXTENSIONS) == root
    {
      BaseNameOfArchive(root, e);
    }
    if extension :| extension in {".tar.gz", ".tar.bz2", ".tgz", ".zip", ".tar"} && EndsWith(Lower(filename), extension) {
      var n := |filename| - |extension|;
      LowerAppends(filename[..n], filename[n..]);
      assert filename == filename[..n] + filename[n..] && filename[n..] in Ends(filename);
      assert Lower(filename)[n..] == Lower(filename[n..]);
      BaseNameOfArchive(filename[..n], filename[n..]);
    } else {
      OtherNamesStay(filename);
    }
  }

  /** What a text ends in. */
  function Ends(s: string): set<string> {
    set n | 0 <= n <= |s| :: s[n..]
  }

  lemma {:induction false} LowerAppends(a: string, b: string)
    ensures Lower(a + b) == Lower(a) + Lower(b)
  {
    if a == "" {
      assert a + b == b;
    } else {
      assert (a + b)[1..] == a[1..] + b;
      LowerAppends(a[1..], b);
    }
  }

  /** What ends in one of the extensions ends in no other. */
  lemma ExtensionsDiffer(stem: string, extension: string)
    requires extension in {".tar.gz", ".tar.bz2", ".tgz", ".zip", ".tar"}
    ensures forall e | e in {".tar.gz", ".tar.bz2", ".tgz", ".zip", ".tar"} :: EndsWith(stem + extension, e) <==> e == extension
  {
    var name := stem + extension;
    forall e | e in {".tar.gz", ".tar.bz2", ".tgz", ".zip", ".tar"} && e != extension ensures !EndsWith(name, e) {
      var k := if e[|e| - 1] != extension[|extension| - 1] then 1 else 3;
      assert e[|e| - k] != extension[|extension| - k];
      EndCharacter(name, e, k);
      EndCharacter(name, extension, k);
    }
  }

  lemma EndCharacter(name: string, e: string, k: nat)
    requires 0 < k <= |e|
    ensures EndsWith(name, e) ==> name[|name| - k] == e[|e| - k]
  {
    if EndsWith(name, e) {
      assert name[|name| - |e|..][|e| - k] == name[|name| - k];
    }
  }

  /** The first extension that the name ends in is what counts. */
  lemma {:induction false} BaseNameByFirst(filename: string, extensions: seq<string>, i: nat)
    requires i <= |extensions| && forall j | 0 <= j < i :: !EndsWith(Lower(filename), extensions[j])
    requires i < |extensions| ==> EndsWith(Lower(filename), extensions[i])
    ensures
      BaseName(filename, extensions)
      == if i < |extensions| then filename[..|filename| - |extensions[i]|] else filename
  {
    hide Lower;
    if i > 0 {
      BaseNameByFirst(filename, extensions[1..], i - 1);
    }
  }

  /** Any other name is kept. */
  lemma OtherNamesStay(filename: string)
    requires forall e | e in {".tar.gz", ".tar.bz2", ".tgz", ".zip", ".tar"} :: !EndsWith(Lower(filename), e)
    ensures BaseName(filename, ARCHIVE_EXTENSIONS) == filename
  {
    hide Lower, EndsWith;
    BaseNameByFirst(filename, ARCHIVE_EXTENSIONS, |ARCHIVE_EXTENSIONS|);
  }
}
