/** The label of a site host (core/site/resolver.ts): an id, a preview of a name, or a name. */
module SiteLabels {
  import opened Text
  import opened Cursor
  import opened SiteNames
  import opened SiteResolver
  import opened Wrappers

  datatype Form =
    | IdHost(id: string)
    | Preview(version: Option<nat>, name: string)
    | NoPreview
    | Named(name: string)

  /** Where the first `--` is, or the length of the text. */
  function FirstDashes(s: string): (i: nat)
    ensures i <= |s|
    ensures i < |s| ==> StartsWith(s[i..], "--")
  {
    if |s| == 0 || StartsWith(s, "--") then 0 else 1 + FirstDashes(s[1..])
  }

  /** `v` and a version number from 1 on, written without leading zeros. */
  predicate PreviewVersion(left: string) {
    |left| > 1 && left[0] == 'v' && '1' <= left[1] <= '9' && forall i | 2 <= i < |left| :: IsDigit(left[i])
  }

  function VersionOf(left: string): nat
    requires PreviewVersion(left)
  {
    assert forall i | 0 <= i < |left| - 1 :: IsDigit(left[1..][i]);
    ValueOf(left[1..])
  }

  function ParseLabel(text: string): Form {
    if IdLabel(text) then IdHost(text)
    else
      var i := FirstDashes(text);
      if i < |text| then
        var left, name := text[..i], text[i + 2..];
        if PreviewVersion(left) then Preview(Some(VersionOf(left)), name)
        else if left == "latest" then Preview(None, name)
        else NoPreview
      else Named(text)
  }

  /** What a host is served: an id, and whether as a preview that never moves or follows the asset. */
  datatype Serving = Plain | Pinned | Latest

  datatype Target = Serve(id: string, serving: Serving) | Unavailable | Withdrawn | NoSite

  function FromResolution(r: Resolution): Target {
    match r
    case ToAsset(id, _) => Serve(id, Plain)
    case Disabled => Unavailable
    case Gone => Withdrawn
    case Miss => NoSite
  }

  /** Versions by asset and number, and the newest version of an asset. */
  datatype Versions = Versions(byNumber: (string, nat) -> Option<string>, newest: string -> Option<string>)

  /** The composed resolver, over what a row resolves to. */
  function ResolveLabel(text: string, suffix: string, row: string -> Resolution, versions: Versions): Target {
    match ParseLabel(text)
    case IdHost(id) => Serve(id, Plain)
    case NoPreview => NoSite
    case Named(name) => FromResolution(row(name + suffix))
    case Preview(version, name) =>
      match row(name + suffix)
      case ToAsset(id, previews) =>
        if !previews then NoSite
        else
          var found := if version.Some? then versions.byNumber(id, version.value) else versions.newest(id);
          if found.None? then NoSite else Serve(found.value, if version.Some? then Pinned else Latest)
      case other => FromResolution(other)
  }

  // --- The forms are disjoint ---

  lemma {:induction false} DashesAfter(left: string, name: string)
    requires '-' !in left
    ensures FirstDashes(left + "--" + name) == |left|
  {
    var s := left + "--" + name;
    if |left| > 0 {
      assert s[0] == left[0] && left[0] in left;
      assert s[1..] == left[1..] + "--" + name;
      DashesAfter(left[1..], name);
    } else {
      assert s[..2] == "--";
    }
  }

  lemma {:induction false} NoDashes(name: string)
    requires !Contains(name, "--")
    ensures FirstDashes(name) == |name|
  {
    if |name| > 0 {
      assert name[0..] == name;
      assert !StartsWith(name[0..], "--");
      forall i | 0 <= i <= |name[1..]|
        ensures !StartsWith(name[1..][i..], "--")
      {
        assert name[1..][i..] == name[i + 1..];
      }
      NoDashes(name[1..]);
    }
  }

  lemma {:induction false} DecimalHasNoLeadingZero(n: nat)
    requires n >= 1
    ensures '1' <= Decimal(n)[0] <= '9'
  {
    if n >= 10 {
      DecimalHasNoLeadingZero(n / 10);
    }
  }

  /** The label of version `n` of a name. */
  function PreviewLabel(n: nat, name: string): string {
    "v" + Decimal(n) + "--" + name
  }

  lemma DashIsNoHex(s: string)
    requires '-' in s
    ensures !IdLabel(s)
  {
  }

  lemma DigitsHaveNoDash(s: string)
    requires forall i | 0 <= i < |s| :: IsDigit(s[i])
    ensures '-' !in "v" + s
  {
  }

  /** For a valid name and a version from 1 on, the preview label means that version of that name, and nothing else. */
  lemma PreviewLabelParses(n: nat, name: string)
    requires n >= 1 && ValidName(name)
    ensures ParseLabel(PreviewLabel(n, name)) == Preview(Some(n), name)
    ensures ParseLabel("latest--" + name) == Preview(None, name)
    ensures ParseLabel(name) == Named(name)
  {
    hide ValidName, IdLabel, Decimal, ValueOf, RESERVED_NAMES, Contains, IsDigit;
    var left := "v" + Decimal(n);
    DecimalReads(n);
    DecimalHasNoLeadingZero(n);
    DigitsHaveNoDash(Decimal(n));
    assert left[1..] == Decimal(n);
    assert PreviewVersion(left);
    Splits(left, name);
    var latest := "latest";
    LatestHasNoDash();
    Splits(latest, name);
    assert "latest--" + name == latest + "--" + name;
    assert !PreviewVersion(latest);
    ValidIsPlain(name);
    NoDashes(name);
  }

  lemma LatestHasNoDash()
    ensures '-' !in "latest"
  {
  }

  lemma ValidIsPlain(name: string)
    requires ValidName(name)
    ensures !IdLabel(name) && !Contains(name, "--") && |name| > 0
  {
  }

  lemma Splits(left: string, name: string)
    requires '-' !in left
    ensures
      var s := left + "--" + name;
      !IdLabel(s) && FirstDashes(s) == |left| < |s| && s[..|left|] == left && s[|left| + 2..] == name
  {
    hide IdLabel;
    DashesAfter(left, name);
    var s := left + "--" + name;
    assert s[|left|] == '-';
    DashIsNoHex(s);
  }

  /** What a label is answered when its name serves nothing: that the site is down, that it is gone, or nothing. */
  predicate AnswersAbsent(target: Target, r: Resolution) {
    && (target == Unavailable <==> r.Disabled?)
    && (target == Withdrawn <==> r.Gone?)
    && (target == NoSite <== r.Miss?)
  }

  /**
   * A preview host serves a version if and only if the name is live with previews on and that version exists. It says
   * that the site is down or gone exactly when the name is, and otherwise that there is none.
   */
  lemma PreviewServesExactly(n: nat, name: string, suffix: string, row: string -> Resolution, versions: Versions, id: string)
    requires n >= 1 && ValidName(name)
    ensures
      var r, target := row(name + suffix), ResolveLabel(PreviewLabel(n, name), suffix, row, versions);
      && (target == Serve(id, Pinned) <==> r.ToAsset? && r.previews && versions.byNumber(r.id, n) == Some(id))
      && AnswersAbsent(target, r)
      && (r.ToAsset? && (!r.previews || versions.byNumber(r.id, n).None?) ==> target == NoSite)
  {
    hide ParseLabel, ValidName, PreviewLabel;
    PreviewLabelParses(n, name);
  }

  /** The same of the host that follows the asset, with its newest version. */
  lemma LatestServesExactly(name: string, suffix: string, row: string -> Resolution, versions: Versions, id: string)
    requires ValidName(name)
    ensures
      var r, target := row(name + suffix), ResolveLabel("latest--" + name, suffix, row, versions);
      && (target == Serve(id, Latest) <==> r.ToAsset? && r.previews && versions.newest(r.id) == Some(id))
      && AnswersAbsent(target, r)
      && (r.ToAsset? && (!r.previews || versions.newest(r.id).None?) ==> target == NoSite)
  {
    hide ParseLabel, ValidName;
    PreviewLabelParses(1, name);
  }

  /** A name is served an asset if and only if the row filed under the name with the suffix is live with that asset. */
  lemma NameServesExactly(name: string, suffix: string, row: string -> Resolution, versions: Versions, id: string)
    requires ValidName(name)
    ensures
      var r, target := row(name + suffix), ResolveLabel(name, suffix, row, versions);
      && (target == Serve(id, Plain) <==> r.ToAsset? && r.id == id)
      && AnswersAbsent(target, r)
      && (target == NoSite <==> r.Miss?)
  {
    hide ParseLabel, ValidName;
    PreviewLabelParses(1, name);
  }

  /** An id is served as itself, whatever the table and the versions say. */
  lemma IdServesItself(text: string, suffix: string, row: string -> Resolution, versions: Versions)
    requires |text| == 16 && forall i | 0 <= i < 16 :: text[i] in "0123456789abcdef"
    ensures ResolveLabel(text, suffix, row, versions) == Serve(text, Plain)
  {
    forall i | 0 <= i < 16 ensures HexChar(text[i]) {
      HexDigits(text[i]);
    }
  }

  lemma HexDigits(c: char)
    requires c in "0123456789abcdef"
    ensures HexChar(c)
  {
  }

  /** What precedes the first dashes names a version only as `latest`, or as `v` and the decimal of a number from 1 on. */
  lemma OtherPreviewsServeNothing(left: string, name: string, suffix: string, row: string -> Resolution, versions: Versions)
    requires '-' !in left && left != "latest" && forall n: nat | n >= 1 :: left != "v" + Decimal(n)
    ensures ResolveLabel(left + "--" + name, suffix, row, versions) == NoSite
  {
    hide IdLabel;
    Splits(left, name);
    if PreviewVersion(left) { VersionIsDecimal(left); }
  }

  lemma VersionIsDecimal(left: string)
    requires PreviewVersion(left)
    ensures exists n: nat | n >= 1 :: left == "v" + Decimal(n)
  {
    DigitsAreDecimal(left[1..]);
    assert left == "v" + Decimal(VersionOf(left));
  }

  /** Digits that start with no zero are how their value is written. */
  lemma {:induction false} DigitsAreDecimal(s: string)
    requires |s| > 0 && '1' <= s[0] <= '9' && forall i | 0 <= i < |s| :: IsDigit(s[i])
    ensures ValueOf(s) >= 1 && Decimal(ValueOf(s)) == s
  {
    var last := |s| - 1;
    if last == 0 {
      assert s[..0] == [];
    } else {
      DigitsAreDecimal(s[..last]);
      assert s == s[..last] + [s[last]];
    }
  }
}
