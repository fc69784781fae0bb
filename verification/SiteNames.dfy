/** Site names and custom hostnames (core/site/names.ts, core/site/custom.ts, core/site/usecase.ts): which strings are row keys. */
module SiteNames {
  import opened Text
  import opened Characters
  import opened Cursor
  import opened Wrappers

  datatype NameError = BadFormat | Reserved

  datatype NameCheck = Accepted(name: string) | Refused(error: NameError)

  const RESERVED_NAMES: set<string> := {
    "www", "api", "app", "admin", "dashboard", "login", "auth", "files", "static", "assets", "cdn", "mail", "ftp",
    "ns1", "ns2", "status", "docs", "help", "support", "latest", "serve" }

  predicate LabelChar(c: char) { 'a' <= c <= 'z' || '0' <= c <= '9' || c == '-' }

  predicate HexChar(c: char) { '0' <= c <= '9' || 'a' <= c <= 'f' }

  /** Asset and version ids: 16 lower-case hexadecimal digits. */
  predicate IdLabel(part: string) {
    |part| == 16 && forall i | 0 <= i < |part| :: HexChar(part[i])
  }

  predicate VersionShaped(name: string) {
    |name| > 1 && name[0] == 'v' && forall i | 1 <= i < |name| :: IsDigit(name[i])
  }

  /** A label under the site suffix that may be claimed. */
  predicate ValidName(name: string) {
    && 3 <= |name| <= 63 && (forall i | 0 <= i < |name| :: LabelChar(name[i]))
    && name[0] != '-' && name[|name| - 1] != '-' && !Contains(name, "--")
    && !IdLabel(name) && !VersionShaped(name)
    && forall part | part in Split(name, '-') :: part !in RESERVED_NAMES
  }

  function ValidateSiteName(input: string): NameCheck {
    var name := Lower(Trim(input));
    if |name| < 3 || |name| > 63 then Refused(BadFormat)
    else if exists i | 0 <= i < |name| :: !LabelChar(name[i]) then Refused(BadFormat)
    else if name[0] == '-' || name[|name| - 1] == '-' then Refused(BadFormat)
    else if Contains(name, "--") then Refused(BadFormat)
    else if IdLabel(name) then Refused(Reserved)
    else if VersionShaped(name) then Refused(Reserved)
    else if exists part | part in Split(name, '-') :: part in RESERVED_NAMES then Refused(Reserved)
    else Accepted(name)
  }

  /** Without a trailing dot. */
  function Undotted(s: string): string {
    if EndsWith(s, ".") then s[..|s| - 1] else s
  }

  /** The label of a name given bare or with the suffix. */
  function ToSiteName(input: string, suffix: string): string {
    var value := Undotted(Lower(Trim(input)));
    if EndsWith(value, suffix) then value[..|value| - |suffix|] else value
  }

  /** The row key for a name given in either form. */
  function ToFullHost(hostname: string, suffix: string): string {
    var name := ToSiteName(hostname, suffix);
    if '.' !in name then name + suffix else name
  }

  // --- Custom hostnames ---

  predicate AlphaNum(c: char) { 'a' <= c <= 'z' || '0' <= c <= '9' }

  predicate DnsLabel(part: string) {
    && 1 <= |part| <= 63 && AlphaNum(part[0]) && AlphaNum(part[|part| - 1])
    && forall i | 0 <= i < |part| :: LabelChar(part[i])
  }

  predicate DnsName(hostname: string) {
    && 1 <= |hostname| <= 253 && |Split(hostname, '.')| >= 2
    && forall part | part in Split(hostname, '.') :: DnsLabel(part)
  }

  function ValidateCustomHostname(input: string, suffix: string, apex: Option<string>): NameCheck {
    var hostname := Undotted(Lower(Trim(input)));
    if !DnsName(hostname) then Refused(BadFormat)
    else if EndsWith(hostname, suffix) then Refused(Reserved)
    else if |suffix| > 0 && hostname == suffix[1..] then Refused(Reserved)
    else if apex.Some? && hostname == Lower(apex.value) then Refused(Reserved)
    else Accepted(hostname)
  }

  /** The key of a row: a valid name under the suffix, or a domain of its customer's. */
  datatype Kind = Subdomain | Custom

  function ClaimKey(kind: Kind, hostname: string, suffix: string, apex: Option<string>): NameCheck {
    match kind
    case Custom => ValidateCustomHostname(hostname, suffix, apex)
    case Subdomain =>
      match ValidateSiteName(ToSiteName(hostname, suffix))
      case Refused(error) => Refused(error)
      case Accepted(name) => Accepted(name + suffix)
  }

  // --- What passes ---

  lemma LowerOfLower(s: string)
    requires forall i | 0 <= i < |s| :: LabelChar(s[i]) || s[i] == '.'
    ensures Lower(s) == s && NoSpace(s) && Trim(s) == s
  {
    forall i | 0 <= i < |s|
      ensures LowerChar(s[i]) == s[i] && !IsSpace(s[i])
    {
      PlainChar(s[i]);
    }
    hide IsSpace;
    TrimKeeps(s);
  }

  lemma PlainChar(c: char)
    requires LabelChar(c) || c == '.'
    ensures LowerChar(c) == c && !IsSpace(c)
  {
  }

  /** The check accepts what it returns, and exactly the valid names are fixed points of it. */
  lemma AcceptedNamesAreValid(input: string)
    ensures ValidateSiteName(input).Accepted? ==> ValidName(ValidateSiteName(input).name)
    ensures ValidName(input) <==> ValidateSiteName(input) == Accepted(input)
  {
    hide IsSpace, LowerChar, LabelChar, IdLabel, VersionShaped, RESERVED_NAMES;
    if ValidName(input) { LowerOfLower(input); }
  }

  lemma LabelCharExactly(c: char)
    ensures LabelChar(c) <==> c in "abcdefghijklmnopqrstuvwxyz0123456789-"
  {
  }

  lemma HexCharExactly(c: char)
    ensures HexChar(c) <==> c in "0123456789abcdef"
  {
  }

  /** A name of neither the shape of an id nor that of a version. */
  predicate Shapeless(name: string) {
    && !(|name| == 16 && forall c | c in name :: c in "0123456789abcdef")
    && !(|name| > 1 && name[0] == 'v' && forall i | 1 <= i < |name| :: '0' <= name[i] <= '9')
  }

  lemma ShapelessExactly(name: string)
    ensures Shapeless(name) <==> !IdLabel(name) && !VersionShaped(name)
  {
    forall c | c in name ensures HexChar(c) <==> c in "0123456789abcdef" {
      HexCharExactly(c);
    }
    if !IdLabel(name) && |name| == 16 {
      var i :| 0 <= i < 16 && !HexChar(name[i]);
      assert name[i] in name;
    }
  }

  predicate NobodysWord(part: string) {
    part !in { "www", "api", "app", "admin", "dashboard", "login", "auth", "files", "static", "assets", "cdn", "mail", "ftp",
               "ns1", "ns2", "status", "docs", "help", "support", "latest", "serve" }
  }

  /**
   * A name as it would be stored is accepted if and only if it has 3 to 63 letters, digits and single hyphens, no hyphen at
   * an end, the shape of neither an id nor a version, and no reserved word between its hyphens.
   */
  lemma AcceptedExactly(name: string)
    ensures
      ValidateSiteName(name) == Accepted(name)
      <==> && 3 <= |name| <= 63 && (forall c | c in name :: c in "abcdefghijklmnopqrstuvwxyz0123456789-")
           && name[0] != '-' && name[|name| - 1] != '-' && (forall i | 0 <= i < |name| - 1 :: !(name[i] == '-' && name[i + 1] == '-'))
           && Shapeless(name) && forall part | part in Split(name, '-') :: NobodysWord(part)
  {
    AcceptedNamesAreValid(name);
    ShapelessExactly(name);
    LabelsExactly(name);
    DashesExactly(name);
    WordsExactly(name);
    hide IdLabel, VersionShaped, Contains, Split, LabelChar, NobodysWord, RESERVED_NAMES, ValidateSiteName, Shapeless;
  }

  lemma LabelsExactly(name: string)
    ensures (forall i | 0 <= i < |name| :: LabelChar(name[i])) <==> forall c | c in name :: c in "abcdefghijklmnopqrstuvwxyz0123456789-"
  {
    forall c | c in name ensures LabelChar(c) <==> c in "abcdefghijklmnopqrstuvwxyz0123456789-" {
      LabelCharExactly(c);
    }
    hide LabelChar;
  }

  lemma DashesExactly(name: string)
    ensures Contains(name, "--") <==> exists i | 0 <= i < |name| - 1 :: name[i] == '-' && name[i + 1] == '-'
  {
    if i :| 0 <= i <= |name| && StartsWith(name[i..], "--") {
      assert name[i..][..2] == "--";
      assert name[i] == name[i..][..2][0] && name[i + 1] == name[i..][..2][1];
    }
    if i :| 0 <= i < |name| - 1 && name[i] == '-' && name[i + 1] == '-' {
      assert name[i..][..2] == "--";
    }
  }

  lemma WordsExactly(name: string)
    ensures (forall part | part in Split(name, '-') :: part !in RESERVED_NAMES) <==> (forall part | part in Split(name, '-') :: NobodysWord(part))
  {
    hide Split;
  }

  /** A label of a domain: 1 to 63 letters, digits and hyphens, with no hyphen at an end. */
  predicate Label(part: string) {
    && 1 <= |part| <= 63 && part[0] != '-' && part[|part| - 1] != '-'
    && forall c | c in part :: c in "abcdefghijklmnopqrstuvwxyz0123456789-"
  }

  lemma LabelExactly(part: string)
    ensures DnsLabel(part) <==> Label(part)
  {
    LabelsExactly(part);
    hide LabelChar;
    if |part| > 0 {
      EndExactly(part[0]);
      EndExactly(part[|part| - 1]);
    }
  }

  lemma EndExactly(c: char)
    ensures AlphaNum(c) <==> LabelChar(c) && c != '-'
  {
  }

  /** The hosts that are the service's own: under its suffix, the suffix's parent, and the apex. */
  predicate OwnHost(hostname: string, suffix: string, apex: Option<string>) {
    || EndsWith(hostname, suffix)
    || (|suffix| > 0 && suffix[1..] == hostname)
    || (apex.Some? && hostname == Lower(apex.value))
  }

  /**
   * A custom hostname as it would be stored is accepted if and only if it is a domain of two or more labels and at most 253
   * characters and is not one of the service's own; those are told that they are reserved.
   */
  lemma CustomAcceptedExactly(hostname: string, suffix: string, apex: Option<string>)
    ensures
      var domain := 1 <= |hostname| <= 253 && |Split(hostname, '.')| >= 2 && forall part | part in Split(hostname, '.') :: Label(part);
      && (ValidateCustomHostname(hostname, suffix, apex) == Accepted(hostname) <==> domain && !OwnHost(hostname, suffix, apex))
      && (domain && OwnHost(hostname, suffix, apex) ==> ValidateCustomHostname(hostname, suffix, apex) == Refused(Reserved))
  {
    forall part | part in Split(hostname, '.') ensures DnsLabel(part) <==> Label(part) {
      LabelExactly(part);
    }
    if DnsName(hostname) {
      HostnameIsPlain(hostname);
      HostIsPlain(hostname);
      SuffixStarts(hostname, ".");
    }
    hide IsSpace, LowerChar, LabelChar, DnsLabel, Label, Split, Lower, Trim;
  }

  /** Names under the suffix and custom hostnames never share a key. */
  lemma KeysAreDisjoint(one: string, other: string, suffix: string, apex: Option<string>)
    ensures
      var a, b := ClaimKey(Subdomain, one, suffix, apex), ClaimKey(Custom, other, suffix, apex);
      a.Accepted? && b.Accepted? ==> EndsWith(a.name, suffix) && !EndsWith(b.name, suffix) && a.name != b.name
  {
    hide ValidateSiteName, DnsName, Lower, Trim;
    match ValidateSiteName(ToSiteName(one, suffix))
    case Refused(_) =>
    case Accepted(name) => assert (name + suffix)[|name|..] == suffix;
  }

  /** A suffix as it is configured: a dot, and a plain host with no trailing dot. */
  predicate Suffix(suffix: string) {
    && |suffix| > 1 && suffix[0] == '.' && suffix[|suffix| - 1] != '.'
    && forall i | 0 <= i < |suffix| :: LabelChar(suffix[i]) || suffix[i] == '.' || suffix[i] == ':'
  }

  lemma HostIsPlain(s: string)
    requires |s| > 0 && forall i | 0 <= i < |s| :: LabelChar(s[i]) || s[i] == '.' || s[i] == ':'
    ensures Lower(s) == s && Trim(s) == s
  {
    forall i | 0 <= i < |s|
      ensures LowerChar(s[i]) == s[i] && !IsSpace(s[i])
    {
      if s[i] == ':' { ColonIsPlain(); } else { PlainChar(s[i]); }
    }
    hide IsSpace;
    TrimKeeps(s);
  }

  lemma ColonIsPlain()
    ensures LowerChar(':') == ':' && !IsSpace(':')
  {
  }

  /** The key a claim makes is what the later requests make of it again: bare name, full host, or custom hostname. */
  lemma KeysRoundTrip(name: string, suffix: string)
    requires ValidName(name) && Suffix(suffix)
    ensures ToFullHost(name, suffix) == name + suffix
    ensures ToFullHost(name + suffix, suffix) == name + suffix
    ensures ToSiteName(name + suffix, suffix) == name
  {
    hide IsSpace, LowerChar, LabelChar, IdLabel, VersionShaped, RESERVED_NAMES, Contains, Split;
    LowerOfLower(name);
    NoDots(name);
    SuffixStarts(name, suffix);
    var full := name + suffix;
    HostIsPlain(full);
    assert full[|full| - 1..] == [suffix[|suffix| - 1]];
    assert full[|name|..] == suffix && full[..|name|] == name;
  }

  lemma SuffixStarts(s: string, suffix: string)
    ensures |suffix| > 0 && EndsWith(s, suffix) ==> s[|s| - |suffix|] == suffix[0]
  {
    if |suffix| > 0 && EndsWith(s, suffix) {
      assert s[|s| - |suffix|..][0] == s[|s| - |suffix|];
    }
  }

  lemma NoDots(name: string)
    requires forall i | 0 <= i < |name| :: LabelChar(name[i])
    ensures '.' !in name && !EndsWith(name, ".")
  {
    SuffixStarts(name, ".");
  }

  lemma HostnameIsPlain(hostname: string)
    requires DnsName(hostname)
    ensures forall i | 0 <= i < |hostname| :: LabelChar(hostname[i]) || hostname[i] == '.'
    ensures '.' in hostname && hostname[|hostname| - 1] != '.'
  {
    hide LabelChar, Split;
    var parts := Split(hostname, '.');
    JoinOfSplit(hostname, '.');
    PlainJoin(parts);
    hide Join;
    if '.' !in hostname { SplitAlone(hostname); }
  }

  lemma SplitAlone(s: string)
    requires '.' !in s
    ensures Split(s, '.') == [s]
  {
  }

  lemma {:induction false} PlainJoin(parts: seq<string>)
    requires |parts| > 0 && forall i | 0 <= i < |parts| :: DnsLabel(parts[i])
    ensures |Join(parts, '.')| > 0 && Join(parts, '.')[|Join(parts, '.')| - 1] != '.'
    ensures forall i | 0 <= i < |Join(parts, '.')| :: LabelChar(Join(parts, '.')[i]) || Join(parts, '.')[i] == '.'
  {
    hide LabelChar;
    if |parts| > 1 {
      PlainJoin(parts[1..]);
    }
  }

  /** A custom hostname, too, is found again under the key it was claimed with. */
  lemma CustomKeysRoundTrip(input: string, suffix: string, apex: Option<string>)
    requires ValidateCustomHostname(input, suffix, apex).Accepted?
    ensures ToFullHost(ValidateCustomHostname(input, suffix, apex).name, suffix) == ValidateCustomHostname(input, suffix, apex).name
  {
    hide IsSpace, LowerChar, LabelChar, DnsName, Lower, Trim;
    var hostname := ValidateCustomHostname(input, suffix, apex).name;
    HostnameIsPlain(hostname);
    HostIsPlain(hostname);
    SuffixStarts(hostname, ".");
  }
}
