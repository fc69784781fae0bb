/**
 * Entry paths (container/archive-extractor/path.go): separators, cleaning, and the
 * detection of the one root folder that is stripped from every path.
 */
module ArchivePath {
  import opened Text

  /** Every `\` becomes `/`. */
  function ForwardSlashes(raw: string): (p: string)
    ensures |p| == |raw|
    ensures '\\' !in p
  {
    if raw == "" then ""
    else [if raw[0] == '\\' then '/' else raw[0]] + ForwardSlashes(raw[1..])
  }

  function TrimPrefix(s: string, prefix: string): string {
    if StartsWith(s, prefix) then s[|prefix|..] else s
  }

  /**
   * The segments `filepath.Clean` keeps: empty and `.` segments go, `..` takes back the
   * segment before it, and is kept only when there is none to take back in a relative path.
   */
  function CleanSegments(segments: seq<string>, rooted: bool, kept: seq<string>): (out: seq<string>)
    requires forall k | k in kept :: k != "" && '/' !in k
    requires forall p | p in segments :: '/' !in p
    ensures forall k | k in out :: k != "" && '/' !in k
    decreases |segments|
  {
    if |segments| == 0 then kept
    else
      var s := segments[0];
      var next :=
        if s == "" || s == "." then kept
        else if s != ".." then kept + [s]
        else if |kept| > 0 && kept[|kept| - 1] != ".." then kept[..|kept| - 1]
        else if rooted then kept
        else kept + [s];
      CleanSegments(segments[1..], rooted, next)
  }

  /** `filepath.Clean` on a system whose separator is `/`. */
  function Clean(p: string): string {
    if p == "" then "."
    else
      var rooted := p[0] == '/';
      var body := Join(CleanSegments(Split(p, '/'), rooted, []), '/');
      var out := (if rooted then "/" else "") + body;
      if out == "" then "." else out
  }

  function NormalizeSeparators(raw: string): string {
    Clean(TrimPrefix(ForwardSlashes(raw), "/"))
  }

  function FirstSegment(p: string): string {
    if '/' in p then p[..IndexOf(p, '/')] else p
  }

  function StripPrefix(normalized: string, prefix: string): string {
    if prefix == "" then normalized else TrimPrefix(normalized, prefix)
  }

  /** The path an entry is stored and listed under. */
  function OutputPath(raw: string, prefix: string): string {
    StripPrefix(NormalizeSeparators(raw), prefix)
  }

  /** What the detector can hand out: nothing, or one non-empty folder and a slash. */
  predicate ValidPrefix(prefix: string) {
    prefix == "" || (|prefix| >= 2 && prefix[|prefix| - 1] == '/' && '/' !in prefix[..|prefix| - 1])
  }

  lemma {:induction false} JoinEnds(parts: seq<string>)
    requires forall k | k in parts :: k != "" && '/' !in k
    ensures |parts| > 0 ==> |Join(parts, '/')| > 0
    ensures |parts| > 0 ==> Join(parts, '/')[|Join(parts, '/')| - 1] != '/'
  {
    if |parts| > 1 {
      assert forall k | k in parts[1..] :: k in parts;
      JoinEnds(parts[1..]);
    } else if |parts| == 1 {
      assert parts[0] in parts;
      var last := parts[0][|parts[0]| - 1];
      assert last in parts[0];
    }
  }

  /** A cleaned path is never empty and ends in a slash only when it is the root itself. */
  lemma CleanShape(p: string)
    ensures Clean(p) != ""
    ensures Clean(p) == "/" || Clean(p)[|Clean(p)| - 1] != '/'
  {
    if p != "" {
      JoinEnds(CleanSegments(Split(p, '/'), p[0] == '/', []));
    }
  }

  /** Stripping never leaves an empty path, so no line escapes the manifest's deduplication. */
  lemma OutputPathNotEmpty(raw: string, prefix: string)
    requires ValidPrefix(prefix)
    ensures OutputPath(raw, prefix) != ""
  {
    CleanShape(TrimPrefix(ForwardSlashes(raw), "/"));
  }

  // --- The root folder ---

  const ARCHIVE_EXTENSIONS: seq<string> := [".tar.gz", ".tar.bz2", ".tgz", ".zip", ".tar"]

  function LowerChar(c: char): char {
    if 'A' <= c <= 'Z' then (c as int + 32) as char else c
  }

  function Lower(s: string): (t: string)
    ensures |t| == |s|
  {
    if s == "" then "" else [LowerChar(s[0])] + Lower(s[1..])
  }

  /** The name without the first of `extensions` it ends with, in any letter case. */
  function BaseName(filename: string, extensions: seq<string>): string {
    if |extensions| == 0 then filename
    else if EndsWith(Lower(filename), extensions[0]) then filename[..|filename| - |extensions[0]|]
    else BaseName(filename, extensions[1..])
  }

  /** `root` names the archive, with or without its extension. */
  predicate NamesArchive(root: string, filename: string) {
    root == BaseName(filename, ARCHIVE_EXTENSIONS) || root == filename
  }

  /** The folder a raw path falls under once it is normalised. */
  function RootOf(raw: string): string {
    FirstSegment(NormalizeSeparators(raw))
  }

  /** Every path falls under `root`. */
  predicate SharedRoot(paths: seq<string>, root: string) {
    forall i | 0 <= i < |paths| :: RootOf(paths[i]) == root
  }

  /** `RootPrefixDetector`: fed one path at a time, it keeps only the root seen so far. */
  class RootPrefixDetector {
    var commonRoot: string
    var conflict: bool
    var seen: bool
    ghost var observed: seq<string>

    ghost predicate Valid()
      reads this
    {
      && (seen <==> |observed| > 0)
      && (conflict ==> seen && commonRoot == "" && !SharedRoot(observed, RootOf(observed[0])))
      && (!conflict && seen ==> commonRoot == RootOf(observed[0]) && SharedRoot(observed, commonRoot))
      && (!seen ==> commonRoot == "" && !conflict)
    }

    constructor ()
      ensures Valid() && observed == []
    {
      commonRoot, conflict, seen := "", false, false;
      observed := [];
    }

    // The source also skips an empty normalised path; CleanShape shows there is none.
    method Observe(rawPath: string)
      requires Valid()
      modifies this
      ensures Valid()
      ensures observed == old(observed) + [rawPath]
    {
      ghost var before := observed;
      observed := observed + [rawPath];
      SharedRootGrows(before, rawPath);
      if conflict {
        return;
      }
      var seg := RootOf(rawPath);
      if !seen {
        commonRoot, seen := seg, true;
        return;
      }
      if seg != commonRoot {
        conflict, commonRoot := true, "";
      }
    }

    /**
     * The prefix is the shared root and a slash exactly when there is one non-empty
     * shared root that names the archive.
     */
    method Result(archiveFilename: string) returns (prefix: string)
      requires Valid()
      ensures ValidPrefix(prefix)
      ensures prefix != "" ==>
        |observed| > 0 && SharedRoot(observed, prefix[..|prefix| - 1]) &&
        NamesArchive(prefix[..|prefix| - 1], archiveFilename)
      ensures prefix == "" ==>
        forall root | |observed| > 0 && root != "" && SharedRoot(observed, root) :: !NamesArchive(root, archiveFilename)
    {
      assert forall root | |observed| > 0 && SharedRoot(observed, root) :: root == RootOf(observed[0]);
      if conflict || commonRoot == "" {
        return "";
      }
      var baseName := archiveFilename;
      var k := 0;
      while k < |ARCHIVE_EXTENSIONS|
        invariant 0 <= k <= |ARCHIVE_EXTENSIONS|
        invariant baseName == archiveFilename
        invariant BaseName(archiveFilename, ARCHIVE_EXTENSIONS) == BaseName(archiveFilename, ARCHIVE_EXTENSIONS[k..])
      {
        var ext := ARCHIVE_EXTENSIONS[k];
        assert ARCHIVE_EXTENSIONS[k..][1..] == ARCHIVE_EXTENSIONS[k + 1..];
        if EndsWith(Lower(baseName), ext) {
          baseName := baseName[..|baseName| - |ext|];
          break;
        }
        k := k + 1;
      }
      if commonRoot == baseName || commonRoot == archiveFilename {
        prefix := commonRoot + "/";
        assert prefix[..|prefix| - 1] == commonRoot;
        RootHasNoSlash(observed[0]);
      } else {
        prefix := "";
      }
    }
  }

  lemma SharedRootGrows(paths: seq<string>, path: string)
    ensures |paths| > 0 ==> (paths + [path])[0] == paths[0]
    ensures forall root :: SharedRoot(paths + [path], root) <==> SharedRoot(paths, root) && RootOf(path) == root
  {
    var all := paths + [path];
    assert forall i | 0 <= i < |paths| :: all[i] == paths[i];
    assert all[|paths|] == path;
  }

  lemma RootHasNoSlash(raw: string)
    ensures '/' !in RootOf(raw)
  {
  }

  /** A path under the detected root loses exactly the root; the root itself is kept as it is. */
  lemma StripUnderRoot(raw: string, root: string)
    requires root != "" && '/' !in root
    requires RootOf(raw) == root
    ensures
      || (OutputPath(raw, root + "/") == root && NormalizeSeparators(raw) == root)
      || NormalizeSeparators(raw) == root + "/" + OutputPath(raw, root + "/")
  {
    hide NormalizeSeparators;
    var p := NormalizeSeparators(raw);
    if '/' in p {
      var i := IndexOf(p, '/');
      assert p == p[..i] + "/" + p[i + 1..];
      assert StartsWith(p, root + "/");
    } else {
      assert !StartsWith(p, root + "/");
    }
  }
}
