/**
 * Artifact naming in `getIspc`: from a version, a platform and an optional
 * architecture, the download URL, the archive's file name and the directory
 * holding the `ispc` executable once the archive is unpacked.
 */
module Artifacts {
  import opened Results
  import opened Platforms
  import opened Paths

  /** Release hosting root; the release tag and file name follow it. */
  const ReleaseBase: string := "https://github.com/ispc/ispc/releases/download/"

  /** The release tag in names and URLs: the version behind a `v`. */
  function VersionTag(version: string): string {
    "v" + version
  }

  /**
   * The architecture part of a name. An absent or empty architecture adds
   * nothing; oneapi is joined with '-', every other architecture with '.'.
   */
  function ArchSuffix(arch: Option<string>): string {
    match arch
    case None => ""
    case Some(a) => if a == "" then "" else (if a == "oneapi" then "-" else ".") + a
  }

  /** The archive format: a zip file on windows, a gzipped tarball elsewhere. */
  function Extension(p: Platform): string {
    if p == Windows then ".zip" else ".tar.gz"
  }

  /** The part of every name after the version: platform, architecture, extension. */
  function Tail(p: Platform, arch: Option<string>): string {
    "-" + Name(p) + ArchSuffix(arch) + Extension(p)
  }

  /** What `getIspc` derives from its three arguments. */
  datatype Artifact = Artifact(url: string, outFile: string, binDir: string)

  /**
   * getIspc's names. The archive is `ispc-v<version>` followed by the tail
   * for the platform and architecture; the URL is that name under the
   * release tag's download directory; the bin directory is the archive name
   * without its extension, plus `/bin`, except for oneapi (see
   * `OneapiBinDirDropsSuffix`).
   */
  function Locate(version: string, p: Platform, arch: Option<string>): (r: Artifact)
    ensures r.outFile == "ispc-" + VersionTag(version) + Tail(p, arch)
    ensures r.url == ReleaseBase + VersionTag(version) + "/" + r.outFile
    ensures EndsWith(r.url, r.outFile)
  {
    var versionStr := VersionTag(version);
    var archStr := ArchSuffix(arch);
    var extension := Extension(p);
    var outFile := "ispc-" + versionStr + "-" + Name(p) + archStr + extension;
    var url := ReleaseBase + versionStr + "/" + outFile;
    var dirArch := if arch == Some("oneapi") then "" else archStr;
    var stem := "ispc-" + versionStr + "-" + Name(p) + dirArch;
    assert url == (ReleaseBase + versionStr + "/") + outFile;
    Artifact(url, outFile, stem + "/bin")
  }

  /**
   * Apart from oneapi, the bin directory is the archive name with its
   * extension cut off, plus `/bin`.
   */
  lemma BinDirIsArchiveStem(version: string, p: Platform, arch: Option<string>)
    requires arch != Some("oneapi")
    ensures var r := Locate(version, p, arch);
      && EndsWith(r.outFile, Extension(p))
      && r.binDir == r.outFile[..|r.outFile| - |Extension(p)|] + "/bin"
  {
    var r := Locate(version, p, arch);
    var stem := "ispc-" + VersionTag(version) + "-" + Name(p) + ArchSuffix(arch);
    assert r.outFile == stem + Extension(p);
    assert r.outFile[..|stem|] == stem;
  }

  /**
   * For oneapi the URL and archive name carry "-oneapi", but the bin directory
   * is the one of the plain linux build: the archive unpacks without the suffix.
   */
  lemma OneapiBinDirDropsSuffix(version: string)
    ensures var r := Locate(version, Linux, Some("oneapi"));
      && r.binDir == Locate(version, Linux, None).binDir
      && r.outFile == "ispc-v" + version + "-linux-oneapi.tar.gz"
  {
  }

  /** The extension `extname` reports for a platform's archives: the last of its dot-parts. */
  function ArchiveExtname(p: Platform): string {
    if p == Windows then ".zip" else ".gz"
  }

  /** Every archive name ends in ".zip" on windows and in ".gz" elsewhere, as `extname` sees it. */
  lemma ExtnameOfOutFile(version: string, p: Platform, arch: Option<string>)
    requires arch.Some? ==> '/' !in arch.value
    ensures Extname(Locate(version, p, arch).outFile) == ArchiveExtname(p)
  {
    var x := "ispc-" + VersionTag(version);
    var u := "-" + Name(p) + ArchSuffix(arch) + (if p == Windows then "" else ".tar");
    OutFileShape(version, p, arch, x, u);
    ExtnameShape(p);
    ExtnameOfTail(Locate(version, p, arch).outFile, x, u, ArchiveExtname(p));
  }

  lemma ExtnameShape(p: Platform)
    ensures var e := ArchiveExtname(p);
      |e| >= 2 && e[0] == '.' && '.' !in e[1..] && '/' !in e
  {
  }

  lemma OutFileShape(version: string, p: Platform, arch: Option<string>, x: string, u: string)
    requires arch.Some? ==> '/' !in arch.value
    requires x == "ispc-" + VersionTag(version)
    requires u == "-" + Name(p) + ArchSuffix(arch) + (if p == Windows then "" else ".tar")
    ensures Locate(version, p, arch).outFile == x + u + ArchiveExtname(p)
    ensures u != [] && '/' !in u
  {
    var head := "-" + Name(p) + ArchSuffix(arch);
    assert '/' !in ArchSuffix(arch);
    var mid := if p == Windows then "" else ".tar";
    var e := ArchiveExtname(p);
    calc {
      Locate(version, p, arch).outFile;
      x + Tail(p, arch);
      x + (head + Extension(p));
      { assert Extension(p) == mid + e; }
      x + (head + (mid + e));
      x + (head + mid) + e;
    }
  }

  /** A suffix agrees with the whole text on every position counted from the end. */
  lemma EndsWithAt(s: string, e: string, k: nat)
    requires EndsWith(s, e) && 1 <= k <= |e|
    ensures s[|s| - k] == e[|e| - k]
  {
    assert s[|s| - |e|..][|e| - k] == s[|s| - k];
  }

  /** Of two suffixes of one text, the shorter is a suffix of the longer. */
  lemma SuffixesNest(s: string, a: string, b: string)
    requires EndsWith(s, a) && EndsWith(s, b) && |a| <= |b|
    ensures EndsWith(b, a)
  {
    assert b[|b| - |a|..] == s[|s| - |b|..][|b| - |a|..];
  }

  /** The last character of a tail and the tenth from its end. */
  function TailKey(t: string): (char, char)
    requires |t| >= 10
  {
    (t[|t| - 1], t[|t| - 10])
  }

  /** Which resolved request a tail key belongs to. */
  function KeyOwner(k: (char, char)): (Platform, Option<string>) {
    match k
    case ('z', 'a') => (Linux, Some("oneapi"))
    case ('z', 'h') => (Linux, Some("aarch64"))
    case ('z', '_') => (MacOS, Some("x86_64"))
    case ('z', 'm') => (MacOS, Some("arm64"))
    case ('z', 's') => (MacOS, Some("universal"))
    case ('p', _) => (Windows, None)
    case _ => (Linux, None)
  }

  /** The key of every resolved tail leads back to its platform and architecture. */
  lemma TailKeyOwner(p: Platform, a: Option<string>)
    requires a in Resolved(p)
    ensures |Tail(p, a)| >= 10 && KeyOwner(TailKey(Tail(p, a))) == (p, a)
  {
    var head := "-" + Name(p) + ArchSuffix(a);
    var ext := Extension(p);
    assert Tail(p, a) == head + ext;
    var t := Tail(p, a);
    assert t[|t| - 1] == ext[|ext| - 1];
    if p == Windows {
      assert t[|t| - 10] == head[|head| - 6];
    } else {
      assert t[|t| - 10] == head[|head| - 3];
    }
  }

  /** No resolved tail ends with another one. */
  lemma TailsSuffixFree(p1: Platform, a1: Option<string>, p2: Platform, a2: Option<string>)
    requires a1 in Resolved(p1) && a2 in Resolved(p2)
    requires EndsWith(Tail(p2, a2), Tail(p1, a1))
    ensures p1 == p2 && a1 == a2
  {
    var t1, t2 := Tail(p1, a1), Tail(p2, a2);
    TailKeyOwner(p1, a1);
    TailKeyOwner(p2, a2);
    EndsWithAt(t2, t1, 1);
    EndsWithAt(t2, t1, 10);
    assert TailKey(t1) == TailKey(t2);
  }

  /**
   * Archive names identify their release: two resolved requests that name the
   * same archive agree on version, platform and architecture.
   */
  lemma OutFileInjective(v1: string, p1: Platform, a1: Option<string>,
                         v2: string, p2: Platform, a2: Option<string>)
    requires a1 in Resolved(p1) && a2 in Resolved(p2)
    requires Locate(v1, p1, a1).outFile == Locate(v2, p2, a2).outFile
    ensures v1 == v2 && p1 == p2 && a1 == a2
  {
    var t1, t2 := Tail(p1, a1), Tail(p2, a2);
    var h1, h2 := "ispc-" + VersionTag(v1), "ispc-" + VersionTag(v2);
    var s := Locate(v1, p1, a1).outFile;
    assert s == h1 + t1 && s == h2 + t2;
    assert EndsWith(s, t1) && EndsWith(s, t2);
    if |t1| <= |t2| {
      SuffixesNest(s, t1, t2);
      TailsSuffixFree(p1, a1, p2, a2);
    } else {
      SuffixesNest(s, t2, t1);
      TailsSuffixFree(p2, a2, p1, a1);
    }
    assert h1 == s[..|s| - |t1|] == h2;
    assert VersionTag(v1) == h1[5..] && VersionTag(v2) == h2[5..];
    assert v1 == VersionTag(v1)[1..] && v2 == VersionTag(v2)[1..];
  }
}
