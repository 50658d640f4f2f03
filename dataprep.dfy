/** Data versioning: scan the processed-data directory for `v<N>_cleaned.csv`
    names, choose the next version number, name the new cleaned file after it,
    and append a block describing it to the data manifest. */
module DataPrep {
  import opened PyValues

  const Suffix := "_cleaned.csv"

  /** Length of the run of ASCII digits at the start of `s`. */
  function DigitRun(s: string): (n: nat)
    ensures n <= |s| && AllDigits(s[..n])
    ensures n < |s| ==> !IsDigit(s[n])
  {
    if s != [] && IsDigit(s[0]) then
      var n := 1 + DigitRun(s[1..]);
      assert s[..n] == [s[0]] + s[1..][..n - 1];
      n
    else 0
  }

  lemma {:induction false} DigitRunOfNumeral(d: string, t: string)
    requires AllDigits(d)
    requires t == [] || !IsDigit(t[0])
    ensures DigitRun(d + t) == |d|
  {
    if d != [] {
      assert (d + t)[1..] == d[1..] + t;
      DigitRunOfNumeral(d[1..], t);
    } else {
      assert d + t == t;
    }
  }

  /** `re.match(r"v(\d+)_cleaned\.csv", name)` and `int(match.group(1))`.  The
      pattern is anchored at the start of the name only, so anything may follow
      `.csv`.  `\d+` is greedy and `_` is not a digit, so the group is the whole
      run of digits after `v`. */
  function MatchVersion(name: string): (r: Option<nat>)
    ensures r.Some? ==> |name| > |Suffix| + 1 && name[0] == 'v' && IsDigit(name[1])
    ensures r.Some? ==> exists n :: (1 < n <= |name| - |Suffix| && AllDigits(name[1..n]) &&
                                     Suffix <= name[n..] && r.value == DigitsValue(name[1..n]))
  {
    if |name| > 0 && name[0] == 'v' then
      var rest := name[1..];
      var n := DigitRun(rest);
      if n > 0 && Suffix <= rest[n..] then
        assert rest[..n] == name[1..n + 1] && rest[n..] == name[n + 1..];
        Some(DigitsValue(rest[..n]))
      else None
    else None
  }

  /** `f"v{n}_cleaned.csv"`. */
  function CleanedName(n: nat): (name: string)
    ensures |name| > |Suffix| + 1 && name[0] == 'v'
    ensures name[|name| - |Suffix|..] == Suffix && AllDigits(name[1..|name| - |Suffix|])
  {
    "v" + NatToString(n) + Suffix
  }

  /** `v<digits>` followed by anything that starts with `_cleaned.csv`
      matches, with the digits' value as the version. */
  lemma MatchesWithAnyTail(d: string, t: string)
    requires d != [] && AllDigits(d) && Suffix <= t
    ensures MatchVersion("v" + d + t) == Some(DigitsValue(d))
  {
    var name := "v" + d + t;
    assert name[1..] == d + t;
    assert t[0] == Suffix[0];
    DigitRunOfNumeral(d, t);
    assert (d + t)[..|d|] == d && (d + t)[|d|..] == t;
  }

  /** Formatting a version and matching the name gives the version back. */
  lemma CleanedNameRoundTrip(n: nat)
    ensures MatchVersion(CleanedName(n)) == Some(n)
  {
    MatchesWithAnyTail(NatToString(n), Suffix);
    DigitsRoundTrip(n);
  }

  /** A name with text after `.csv` still counts as a version. */
  lemma TrailingTextStillMatches()
    ensures MatchVersion("v3_cleaned.csv.bak") == Some(3)
  {
    var rest := "v3_cleaned.csv.bak"[1..];
    assert rest[0] == '3' && rest[1] == '_';
    assert DigitRun(rest[1..]) == 0;
    assert DigitRun(rest) == 1;
    assert rest[..1] == "3";
    assert DigitsValue("3") == 3 by { assert "3"[..0] == []; }
    assert rest[1..][..|Suffix|] == Suffix;
  }

  /** The match is anchored at the start: a name must begin with `v`. */
  lemma PrefixedNameIgnored()
    ensures MatchVersion("data_v3_cleaned.csv") == None
  {
  }

  /** `\d+` needs at least one digit after the `v`. */
  lemma VersionNeedsDigits()
    ensures MatchVersion("v_cleaned.csv") == None
  {
    assert DigitRun("v_cleaned.csv"[1..]) == 0;
  }

  /** `version_numbers`: the versions of the matching names, in listing order. */
  function VersionsOf(names: seq<string>): (vs: seq<nat>)
    ensures |vs| <= |names|
    decreases |names|
  {
    if names == [] then []
    else
      var n := |names| - 1;
      VersionsOf(names[..n]) + (match MatchVersion(names[n]) case Some(v) => [v] case None => [])
  }

  lemma {:induction false} VersionsOfMembers(names: seq<string>, v: nat)
    ensures v in VersionsOf(names) <==> exists e :: e in names && MatchVersion(e) == Some(v)
    decreases |names|
  {
    if names != [] {
      var n := |names| - 1;
      VersionsOfMembers(names[..n], v);
      assert names == names[..n] + [names[n]];
      if v in VersionsOf(names[..n]) {
        var e :| e in names[..n] && MatchVersion(e) == Some(v);
        assert e in names;
      }
    }
  }

  /** Python's `max` over a non-empty list. */
  function Max(vs: seq<nat>): (m: nat)
    requires vs != []
    ensures m in vs && forall v :: v in vs ==> v <= m
  {
    if |vs| == 1 then vs[0]
    else
      var rest := Max(vs[1..]);
      assert forall v :: v in vs ==> v == vs[0] || v in vs[1..];
      if vs[0] >= rest then vs[0] else rest
  }

  /** Lines 26-30: one past the largest version, or 2 when there is none
      (version 1 is the raw data). */
  function NextVersion(vs: seq<nat>): (next: nat)
    ensures vs == [] ==> next == 2
    ensures vs != [] ==> exists v :: v in vs && next == v + 1
    ensures forall v :: v in vs ==> v < next
  {
    if vs == [] then 2 else Max(vs) + 1
  }

  lemma NextVersionDependsOnSet(vs1: seq<nat>, vs2: seq<nat>)
    requires forall v :: v in vs1 <==> v in vs2
    ensures NextVersion(vs1) == NextVersion(vs2)
  {
    if vs1 != [] {
      assert vs1[0] in vs2;
    }
    if vs2 != [] {
      assert vs2[0] in vs1;
    }
  }

  /** The chosen version depends only on which names the directory holds, not
      on the order `os.listdir` returns them in. */
  lemma ListingOrderIrrelevant(l1: seq<string>, l2: seq<string>)
    requires forall e :: e in l1 <==> e in l2
    ensures NextVersion(VersionsOf(l1)) == NextVersion(VersionsOf(l2))
  {
    forall v: nat ensures v in VersionsOf(l1) <==> v in VersionsOf(l2) {
      VersionsOfMembers(l1, v);
      VersionsOfMembers(l2, v);
    }
    NextVersionDependsOnSet(VersionsOf(l1), VersionsOf(l2));
  }

  /** The new file name is not among the names already in the directory. */
  lemma CleanedNameFresh(names: seq<string>)
    ensures CleanedName(NextVersion(VersionsOf(names))) !in names
  {
    var next := NextVersion(VersionsOf(names));
    if CleanedName(next) in names {
      CleanedNameRoundTrip(next);
      VersionsOfMembers(names, next);
      assert false;
    }
  }

  /** Lines 17-31. */
  method ChooseCleanedFile(listing: seq<string>)
    returns (versionNumbers: seq<nat>, nextVersion: nat, cleanedFile: string)
    ensures versionNumbers == VersionsOf(listing)
    ensures nextVersion == NextVersion(versionNumbers)
    ensures cleanedFile == CleanedName(nextVersion)
    ensures cleanedFile !in listing
  {
    versionNumbers := [];
    for i := 0 to |listing|
      invariant versionNumbers == VersionsOf(listing[..i])
    {
      assert listing[..i + 1][..i] == listing[..i];
      match MatchVersion(listing[i])
      case Some(v) =>
        versionNumbers := versionNumbers + [v];
      case None =>
    }
    assert listing[..|listing|] == listing;
    if versionNumbers != [] {
      nextVersion := Max(versionNumbers) + 1;
    } else {
      nextVersion := 2;
    }
    cleanedFile := "v" + NatToString(nextVersion) + Suffix;
    CleanedNameFresh(listing);
  }

  // ---------------------------------------------------------------------------
  // Files

  function Dashes(n: nat): (s: string)
    ensures |s| == n && forall i :: 0 <= i < n ==> s[i] == '-'
  {
    if n == 0 then [] else Dashes(n - 1) + ['-']
  }

  /** The first line of a manifest block, after the blank separator line. */
  function VersionLine(cleanedFile: string): string {
    "\nVersion: " + cleanedFile + "\n"
  }

  function DetailLines(createdOn: string, rawPath: string): string {
    "Created_on: " + createdOn + "\n" +
    "Script: src/data_prep.py\n" +
    "Input: " + rawPath + "\n" +
    "Description: Dropped missing values\n"
  }

  /** `f"{'-'*60}\n"`. */
  function RuleLine(): string {
    Dashes(60) + "\n"
  }

  /** The block of lines 47-54; `createdOn` is the text of `datetime.now()`. */
  function ManifestBlock(cleanedFile: string, createdOn: string, rawPath: string): (b: string)
    ensures |b| == |cleanedFile| + |createdOn| + |rawPath| + 154
  {
    VersionLine(cleanedFile) + DetailLines(createdOn, rawPath) + RuleLine()
  }

  /** A block starts with the version line and ends with the 60-dash rule. */
  lemma ManifestBlockShape(cleanedFile: string, createdOn: string, rawPath: string)
    ensures "\nVersion: " + cleanedFile + "\n" <= ManifestBlock(cleanedFile, createdOn, rawPath)
    ensures var b := ManifestBlock(cleanedFile, createdOn, rawPath);
      |b| > 61 && b[|b| - 61..] == Dashes(60) + "\n"
  {
    var head := VersionLine(cleanedFile);
    var mid := DetailLines(createdOn, rawPath);
    var rule := RuleLine();
    var b := ManifestBlock(cleanedFile, createdOn, rawPath);
    assert |rule| == 61;
    assert b == head + (mid + rule);
    assert b[..|head|] == head;
    assert b[|b| - 61..] == rule;
  }

  class TextFile {
    var content: string

    constructor (initial: string)
      ensures content == initial
    {
      content := initial;
    }

    /** A write through a handle opened in `"a"` mode. */
    method Append(s: string)
      modifies this
      ensures content == old(content) + s
    {
      content := content + s;
    }
  }

  /** Lines 44-54: the manifest only grows; its old contents stay a prefix. */
  method AppendManifest(manifest: TextFile, cleanedFile: string, createdOn: string, rawPath: string)
    modifies manifest
    ensures manifest.content == old(manifest.content) + ManifestBlock(cleanedFile, createdOn, rawPath)
    ensures old(manifest.content) <= manifest.content
  {
    manifest.Append(ManifestBlock(cleanedFile, createdOn, rawPath));
  }

  /** The processed-data directory, as the set of names it holds. */
  class Directory {
    var names: set<string>

    constructor (initial: set<string>)
      ensures names == initial
    {
      names := initial;
    }

    /** `df_cleaned.to_csv(path)`: the named file now exists. */
    method WriteFile(name: string)
      modifies this
      ensures names == old(names) + {name}
    {
      names := names + {name};
    }
  }

  /** The script from line 17 on.  `listing` is what `os.listdir` returned:
      the directory's names in some order. */
  method PrepareData(dir: Directory, listing: seq<string>, manifest: TextFile, rawPath: string, createdOn: string)
    returns (cleanedFile: string)
    requires forall e :: e in listing <==> e in dir.names
    modifies dir, manifest
    ensures cleanedFile == CleanedName(NextVersion(VersionsOf(listing)))
    ensures cleanedFile !in old(dir.names)
    ensures dir.names == old(dir.names) + {cleanedFile}
    ensures manifest.content == old(manifest.content) + ManifestBlock(cleanedFile, createdOn, rawPath)
  {
    var versionNumbers, nextVersion;
    versionNumbers, nextVersion, cleanedFile := ChooseCleanedFile(listing);
    dir.WriteFile(cleanedFile);
    AppendManifest(manifest, cleanedFile, createdOn, rawPath);
  }
}
