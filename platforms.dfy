/**
 * Identity resolution: which platform names the action accepts, which
 * architectures each platform admits, and the architecture chosen when the
 * input leaves it empty.
 */
module Platforms {
  import opened Results
  import opened Errors

  /** The three platforms release archives exist for. */
  datatype Platform = Linux | MacOS | Windows

  /** The platform's name as it appears in inputs and in archive names. */
  function Name(p: Platform): string {
    match p
    case Linux => "linux"
    case MacOS => "macOS"
    case Windows => "windows"
  }

  /** The list `validatePlatform` accepts, in its order. */
  const PlatformList: seq<string> := ["linux", "macOS", "windows"]

  /** A list of names joined with ",", the way a JavaScript array renders in a template string. */
  function Joined(names: seq<string>): string {
    if |names| == 0 then ""
    else if |names| == 1 then names[0]
    else names[0] + "," + Joined(names[1..])
  }

  /** The list quoted in the unsupported-platform message is this list, rendered. */
  lemma PlatformListRendered()
    ensures Joined(PlatformList) == PlatformListText
  {
    assert PlatformList[1..] == ["macOS", "windows"];
    assert PlatformList[1..][1..] == ["windows"];
  }

  /**
   * validatePlatform: the input is accepted exactly when it is one of the three
   * names, and then it comes back unchanged; any other text, the empty one
   * included, is rejected with the input in the error.
   */
  function ValidatePlatform(input: string): (r: Result<Platform, Error>)
    ensures r.Ok? <==> input in PlatformList
    ensures r.Ok? ==> Name(r.value) == input
    ensures r.Err? ==> r.error == UnsupportedPlatform(input)
  {
    if input == "linux" then Ok(Linux)
    else if input == "macOS" then Ok(MacOS)
    else if input == "windows" then Ok(Windows)
    else Err(UnsupportedPlatform(input))
  }

  /** Each platform's name is accepted and yields that platform back. */
  lemma ValidatePlatformOfName(p: Platform)
    ensures ValidatePlatform(Name(p)) == Ok(p)
  {
  }

  /** `archMap`: the architectures each platform admits; windows has no entry. */
  const ArchMap: map<Platform, seq<string>> :=
    map[Linux := ["oneapi", "aarch64"], MacOS := ["x86_64", "arm64", "universal"]]

  /** `defaultArch`: the architecture used when the input is empty; only macOS has one. */
  const DefaultArch: map<Platform, string> := map[MacOS := "universal"]

  /**
   * validateArch. An empty input takes the platform's default when it has one
   * and otherwise yields no architecture (`undefined`) without error. The
   * resulting architecture must then appear in the platform's `archMap` list,
   * and is returned unchanged.
   */
  function ValidateArch(platform: Platform, input: string): (r: Result<Option<string>, Error>)
    ensures input == "" && platform == MacOS ==> r == Ok(Some("universal"))
    ensures input == "" && platform != MacOS ==> r == Ok(None)
    ensures input != "" ==>
      (r.Ok? <==> platform in ArchMap && input in ArchMap[platform])
    ensures input != "" && r.Ok? ==> r.value == Some(input)
    ensures input != "" && r.Err? ==> r.error == UnsupportedArch(Name(platform), input)
    ensures r.Ok? && r.value.Some? ==> platform in ArchMap && r.value.value in ArchMap[platform]
  {
    var arch :=
      if input == "" && platform in DefaultArch then DefaultArch[platform] else input;
    if arch == "" then Ok(None)
    else if platform !in ArchMap || arch !in ArchMap[platform] then
      Err(UnsupportedArch(Name(platform), arch))
    else Ok(Some(arch))
  }

  /**
   * The architectures a resolved platform can end up with, written out per
   * platform: linux may carry no suffix, oneapi or aarch64; macOS always
   * carries one of its three; windows never carries one.
   */
  function Resolved(p: Platform): set<Option<string>> {
    match p
    case Linux => {None, Some("oneapi"), Some("aarch64")}
    case MacOS => {Some("x86_64"), Some("arm64"), Some("universal")}
    case Windows => {None}
  }

  /** The input that selects a resolved architecture: its text, or empty for none. */
  function ArchInput(a: Option<string>): string {
    match a
    case None => ""
    case Some(s) => s
  }

  /**
   * Whatever `ValidateArch` accepts lies in `Resolved`, and every member of
   * `Resolved` is what `ValidateArch` returns for its own text.
   */
  lemma ValidateArchRange(p: Platform, input: string, a: Option<string>)
    ensures ValidateArch(p, input) == Ok(a) ==> a in Resolved(p)
    ensures a in Resolved(p) ==> ValidateArch(p, ArchInput(a)) == Ok(a)
  {
  }

  /** Windows accepts no explicit architecture at all, since it has no `archMap` entry. */
  lemma WindowsRejectsEveryArch(input: string)
    requires input != ""
    ensures ValidateArch(Windows, input) == Err(UnsupportedArch("windows", input))
  {
  }

  /** There is no x86_64 normalisation: linux rejects it, macOS keeps it. */
  lemma X86OnlyOnMac()
    ensures ValidateArch(Linux, "x86_64") == Err(UnsupportedArch("linux", "x86_64"))
    ensures ValidateArch(Windows, "x86_64") == Err(UnsupportedArch("windows", "x86_64"))
    ensures ValidateArch(MacOS, "x86_64") == Ok(Some("x86_64"))
  {
  }
}
